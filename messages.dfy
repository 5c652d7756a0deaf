/**
  The plain records the codecs and queues carry (src/RawCommand.h,
  include/Protocon/Request.h, include/Protocon/Response.h,
  include/Protocon/ClientToken.h).  Byte strings are sequences of bytes.
*/
module Messages {
  import opened Util

  datatype Request = Request(time: u64, msgType: u16, data: seq<u8>)

  datatype Response = Response(time: u64, status: u8, data: seq<u8>)

  /** A request with the routing metadata of the tagged framing. */
  datatype RawRequest = RawRequest(cmdId: u16, gatewayId: u64, clientId: u64, apiVersion: u16, request: Request)

  datatype RawResponse = RawResponse(cmdId: u16, response: Response)

  datatype RawSignUpRequest = RawSignUpRequest(cmdId: u16, gatewayId: u64)

  datatype RawSignUpResponse = RawSignUpResponse(cmdId: u16, clientId: u64, status: u8)

  datatype RawSignInRequest = RawSignInRequest(cmdId: u16, gatewayId: u64, clientId: u64)

  datatype RawSignInResponse = RawSignInResponse(cmdId: u16, status: u8)

  /**
    The records of the untagged framing used by src/Encoder.h, src/Decoder.h
    and src/Protocon.cpp; their fields are the ones those files read and write.
  */
  datatype SentRequest = SentRequest(clientId: u64, msgType: u16, data: seq<u8>)

  datatype SentResponse = SentResponse(status: u8, data: seq<u8>)

  datatype ReceivedRequest = ReceivedRequest(
    commandId: u16, gatewayId: u64, clientId: u64, time: u64, apiVersion: u16, msgType: u16, data: seq<u8>)

  datatype ReceivedResponse = ReceivedResponse(commandId: u16, time: u64, status: u8, data: seq<u8>)

  /** An opaque client handle; two tokens are equal when their values are. */
  datatype ClientToken = ClientToken(value: u64)
}
