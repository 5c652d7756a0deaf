/**
  Fixed-width unsigned integers and host byte order (src/Util.h).

  A value of width `n` bytes is a natural below 256^n.  Its network
  representation is its bytes most-significant first (`ToBE`).  How the
  same value sits in memory depends on the host: a big-endian host stores
  the network representation, a little-endian host stores it reversed.
  `BigEndian` is the conversion the protocol applies to every multi-byte
  field before writing it and after reading it.
*/
module Util {

  type u8 = x: int | 0 <= x < 0x100
  type u16 = x: int | 0 <= x < 0x1_0000
  type u32 = x: int | 0 <= x < 0x1_0000_0000
  type u64 = x: int | 0 <= x < 0x1_0000_0000_0000_0000

  datatype Option<+T> = None | Some(value: T)

  /** Host byte order, the outcome of the probe in `IsBigEndian`. */
  datatype ByteOrder = LittleEndianHost | BigEndianHost

  function Pow256(n: nat): (r: nat)
    ensures r >= 1
  {
    if n == 0 then 1 else 256 * Pow256(n - 1)
  }

  lemma Pow256Widths()
    ensures Pow256(1) == 0x100 && Pow256(2) == 0x1_0000
    ensures Pow256(4) == 0x1_0000_0000 && Pow256(8) == 0x1_0000_0000_0000_0000
  {
  }

  /** The network representation of `v`: `n` bytes, most significant first. */
  function ToBE(v: nat, n: nat): (s: seq<u8>)
    requires v < Pow256(n)
    ensures |s| == n
    decreases n
  {
    if n == 0 then []
    else
      assert v / 256 < Pow256(n - 1) by { DivBound(v, Pow256(n - 1)); }
      ToBE(v / 256, n - 1) + [(v % 256) as u8]
  }

  lemma DivBound(v: nat, p: nat)
    requires v < 256 * p
    ensures v / 256 < p
  {
  }

  /** The value whose network representation is `s`. */
  function FromBE(s: seq<u8>): (v: nat)
    ensures v < Pow256(|s|)
    decreases |s|
  {
    if s == [] then 0
    else
      var hi := FromBE(s[..|s| - 1]);
      assert hi * 256 + s[|s| - 1] < Pow256(|s|) by { MulBound(hi, Pow256(|s| - 1), s[|s| - 1]); }
      hi * 256 + s[|s| - 1]
  }

  lemma MulBound(hi: nat, p: nat, lo: nat)
    requires hi < p && lo < 256
    ensures hi * 256 + lo < 256 * p
  {
  }

  lemma {:induction false} FromToBE(v: nat, n: nat)
    requires v < Pow256(n)
    ensures FromBE(ToBE(v, n)) == v
    decreases n
  {
    if n > 0 {
      assert v / 256 < Pow256(n - 1) by { DivBound(v, Pow256(n - 1)); }
      var s := ToBE(v, n);
      assert s[..n - 1] == ToBE(v / 256, n - 1);
      FromToBE(v / 256, n - 1);
    }
  }

  lemma {:induction false} ToFromBE(s: seq<u8>)
    ensures ToBE(FromBE(s), |s|) == s
    decreases |s|
  {
    if s != [] {
      var init, last := s[..|s| - 1], s[|s| - 1];
      ToFromBE(init);
      var v := FromBE(s);
      assert v == FromBE(init) * 256 + last;
      assert v / 256 == FromBE(init) && v % 256 == last;
      assert s == init + [last];
    }
  }

  /** The network representation determines the value. */
  lemma ToBEInjective(v: nat, w: nat, n: nat)
    requires v < Pow256(n) && w < Pow256(n)
    requires ToBE(v, n) == ToBE(w, n)
    ensures v == w
  {
    FromToBE(v, n);
    FromToBE(w, n);
  }

  function Reverse<T>(s: seq<T>): (r: seq<T>)
    ensures |r| == |s|
  {
    if s == [] then [] else Reverse(s[1..]) + [s[0]]
  }

  lemma {:induction false} ReverseAt<T>(s: seq<T>, i: nat)
    requires i < |s|
    ensures Reverse(s)[i] == s[|s| - 1 - i]
    decreases |s|
  {
    if i < |s| - 1 {
      ReverseAt(s[1..], i);
    }
  }

  lemma ReverseReverse<T>(s: seq<T>)
    ensures Reverse(Reverse(s)) == s
  {
    var r := Reverse(Reverse(s));
    forall i | 0 <= i < |s| ensures r[i] == s[i] {
      ReverseAt(Reverse(s), i);
      ReverseAt(s, |s| - 1 - i);
    }
  }

  /** The bytes of `v` as a host of the given order lays them out in memory. */
  function InMemory(host: ByteOrder, v: nat, n: nat): (s: seq<u8>)
    requires v < Pow256(n)
    ensures |s| == n
  {
    match host
    case BigEndianHost => ToBE(v, n)
    case LittleEndianHost => Reverse(ToBE(v, n))
  }

  /** The value a host of the given order holds after copying `s` into memory. */
  function FromMemory(host: ByteOrder, s: seq<u8>): (v: nat)
    ensures v < Pow256(|s|)
    ensures InMemory(host, v, |s|) == s
  {
    match host
    case BigEndianHost =>
      ToFromBE(s);
      FromBE(s)
    case LittleEndianHost =>
      var r := Reverse(s);
      ToFromBE(r);
      ReverseReverse(s);
      FromBE(r)
  }

  /** The probe: the first byte in memory of 0x01020304 is 0x01 exactly on a big-endian host. */
  function IsBigEndian(host: ByteOrder): (b: bool)
    ensures b <==> host == BigEndianHost
  {
    Pow256Widths();
    var probe := InMemory(host, 0x01020304, 4);
    assert ToBE(0x01020304, 4) == [1, 2, 3, 4];
    probe[0] == 1
  }

  /** Reverses the `n` bytes of `v` (bswap_16, bswap_32, bswap_64 for n = 2, 4, 8). */
  function ByteSwap(v: nat, n: nat): (r: nat)
    requires v < Pow256(n)
    ensures r < Pow256(n)
    ensures ToBE(r, n) == Reverse(ToBE(v, n))
  {
    var s := Reverse(ToBE(v, n));
    ToFromBE(s);
    FromBE(s)
  }

  /**
    Util::BigEndian for a field of `n` bytes: swaps the bytes on a
    little-endian host and is the identity on a big-endian host.  Whatever
    the host, the result lies in memory as the network representation of `v`.
  */
  function BigEndian(host: ByteOrder, v: nat, n: nat): (r: nat)
    requires v < Pow256(n)
    ensures r < Pow256(n)
    ensures InMemory(host, r, n) == ToBE(v, n)
    ensures host == BigEndianHost ==> r == v
  {
    if !IsBigEndian(host) then
      var r := ByteSwap(v, n);
      ReverseReverse(ToBE(v, n));
      r
    else
      v
  }

  /** Converting twice gives the value back (src/Sender.h:94-96 relies on it). */
  lemma BigEndianInvolution(host: ByteOrder, v: nat, n: nat)
    requires v < Pow256(n)
    ensures BigEndian(host, BigEndian(host, v, n), n) == v
  {
    if host == LittleEndianHost {
      var once := BigEndian(host, v, n);
      var twice := BigEndian(host, once, n);
      assert Reverse(ToBE(twice, n)) == ToBE(once, n);
      assert Reverse(ToBE(once, n)) == ToBE(v, n);
      ReverseReverse(ToBE(twice, n));
      ToBEInjective(twice, v, n);
    }
  }

  /** On a little-endian host the 16-bit conversion exchanges the two bytes. */
  lemma Swap16(v: u16)
    ensures BigEndian(LittleEndianHost, v, 2) == (v % 0x100) * 0x100 + v / 0x100
  {
    Pow256Widths();
    var r := BigEndian(LittleEndianHost, v, 2);
    var s := ToBE(v, 2);
    assert s == [(v / 256) as u8, (v % 256) as u8];
    assert ToBE(r, 2) == [(v % 256) as u8, (v / 256) as u8];
    FromToBE(r, 2);
    assert FromBE([(v % 256) as u8, (v / 256) as u8]) == (v % 0x100) * 0x100 + v / 0x100 by {
      var t: seq<u8> := [(v % 256) as u8, (v / 256) as u8];
      assert t[..1] == [(v % 256) as u8];
      assert [(v % 256) as u8][..0] == [];
    }
  }

  /** On a little-endian host the 64-bit conversion moves byte i to position 7 - i. */
  lemma Swap64(v: u64, i: nat)
    requires i < 8
    ensures ToBE(BigEndian(LittleEndianHost, v, 8), 8)[i] == ToBE(v, 8)[7 - i]
  {
    Pow256Widths();
    var r := BigEndian(LittleEndianHost, v, 8);
    assert Reverse(ToBE(r, 8)) == ToBE(v, 8);
    ReverseAt(ToBE(r, 8), 7 - i);
  }

  /** Reading a field's bytes into memory and converting gives its network value on any host. */
  lemma LoadField(host: ByteOrder, s: seq<u8>)
    ensures BigEndian(host, FromMemory(host, s), |s|) == FromBE(s)
  {
    var m := FromMemory(host, s);
    var r := BigEndian(host, m, |s|);
    if host == LittleEndianHost {
      ReverseReverse(ToBE(m, |s|));
      assert ToBE(m, |s|) == Reverse(s);
      ReverseReverse(ToBE(r, |s|));
      ReverseReverse(s);
      assert ToBE(r, |s|) == s;
      FromToBE(r, |s|);
    }
  }

  // Sequence identities, stated once so that proofs about long byte strings
  // can use them without the solver rediscovering them.

  lemma Assoc<T>(a: seq<T>, b: seq<T>, c: seq<T>)
    ensures (a + b) + c == a + (b + c)
  {
  }

  lemma Concat0<T>(a: seq<T>, b: seq<T>)
    ensures a == [] ==> a + b == b
    ensures b == [] ==> a + b == a
  {
  }

  lemma SnocAssoc<T>(init: seq<T>, last: T, u: seq<T>)
    ensures init + ([last] + u) == (init + [last]) + u
  {
  }

  lemma PrefixCons<T>(a: seq<T>, b: seq<T>, c: seq<T>)
    requires b <= c
    ensures a + b <= a + c
  {
    assert (a + c)[..|a + b|] == a + c[..|b|];
  }

  /** A list built one element at a time from the right is the list of those elements. */
  lemma Nest3<T>(x0: T, x1: T, x2: T)
    ensures [x0] + ([x1] + ([x2] + [])) == [x0, x1, x2]
  {
  }

  lemma Nest4<T>(x0: T, x1: T, x2: T, x3: T)
    ensures [x0] + ([x1] + ([x2] + ([x3] + []))) == [x0, x1, x2, x3]
  {
  }

  lemma Nest5<T>(x0: T, x1: T, x2: T, x3: T, x4: T)
    ensures [x0] + ([x1] + ([x2] + ([x3] + ([x4] + [])))) == [x0, x1, x2, x3, x4]
  {
  }

  lemma Nest6<T>(x0: T, x1: T, x2: T, x3: T, x4: T, x5: T)
    ensures [x0] + ([x1] + ([x2] + ([x3] + ([x4] + ([x5] + []))))) == [x0, x1, x2, x3, x4, x5]
  {
  }

  lemma Nest8<T>(x0: T, x1: T, x2: T, x3: T, x4: T, x5: T, x6: T, x7: T)
    ensures [x0] + ([x1] + ([x2] + ([x3] + ([x4] + ([x5] + ([x6] + ([x7] + [])))))))
      == [x0, x1, x2, x3, x4, x5, x6, x7]
  {
  }

  lemma Nest9<T>(x0: T, x1: T, x2: T, x3: T, x4: T, x5: T, x6: T, x7: T, x8: T)
    ensures [x0] + ([x1] + ([x2] + ([x3] + ([x4] + ([x5] + ([x6] + ([x7] + ([x8] + []))))))))
      == [x0, x1, x2, x3, x4, x5, x6, x7, x8]
  {
  }
}
