/**
 The rest of src/stream.rs: publishing and the getters, under the same lock and latch as the receives.
 What the SDK answers is a parameter.
 */
module Streams {
  import opened Base
  import opened CStrings
  import opened Endpoints
  import Interleaving
  import Sessions

  class Stream {
    const endpoint: Endpoint
    /** The SDK's text for a publish that finds no connection. */
    const notConnected: string
    /** The topics and payloads that the SDK has accepted for sending. */
    var sent: seq<(seq<byte>, seq<byte>)>
    var lastError: Option<string>

    constructor (endpoint: Endpoint, notConnected: string)
      ensures this.endpoint == endpoint && this.notConnected == notConnected
      ensures sent == [] && lastError == None
    {
      this.endpoint := endpoint;
      this.notConnected := notConnected;
      sent, lastError := [], None;
    }

    /** `vireon_stream_publish` and `vireon_stream_try_publish` */
    method PublishData(topic: Option<seq<byte>>, payload: seq<byte>, sdk: Sessions.Answer) returns (rc: int)
      modifies this
      ensures rc == 0 <==> endpoint.inner != null && sdk.Fine?
      ensures rc == 0 || rc == -1
      ensures sent == old(sent) + (if rc == 0 then [(CStrToString(topic), payload)] else [])
      ensures rc == 0 ==> lastError == old(lastError)
      ensures rc != 0 ==>
        var own := "PublishError: " + (if endpoint.inner == null then notConnected else sdk.text);
        lastError == Some(if '\0' in own then "error message contained null byte" else own)
      ensures var reply := Interleaving.PublishReply(endpoint.State(), sdk.Fine?);
        (rc == 0 <==> reply.Accepted?) && (endpoint.inner == null <==> reply.NotConnected?)
    {
      var text := CStrToString(topic);
      var answer := Sessions.Failed(notConnected);
      if endpoint.inner != null {
        answer := sdk;
        if sdk.Fine? {
          sent := sent + [(text, payload)];
        }
      }
      match answer {
        case Fine =>
          rc := 0;
        case Failed(e) =>
          lastError := Some(Sessions.StoredError("PublishError: " + e));
          rc := -1;
      }
    }

    /** `vireon_stream_id` and `vireon_stream_pending_bytes`, `sdk` being the stream's own value. */
    method GetNumber(sdk: u64) returns (value: u64)
      ensures value == if endpoint.inner == null then 0 else sdk
      ensures Interleaving.Number(value) == Interleaving.NumberReply(endpoint.State(), sdk)
    {
      value := if endpoint.inner != null then sdk else 0;
    }
  }
}
