/** Request and reply: `vireon_client_rpc` and PHP's `rpc`. What the SDK answers is a parameter. */
module Clients {
  import opened Base
  import opened Utf8
  import opened CStrings
  import opened CHeap
  import opened Marshal
  import Receivers
  import Sessions

  datatype Answer = Reply(message: Message) | NoReply(text: string)

  /** What the SDK is asked; the timeout is in seconds. */
  datatype Request = Request(topic: seq<byte>, payload: seq<byte>, replyTopic: seq<byte>, timeout: real)

  datatype Outcome = Replied(message: PhpMessage) | Thrown(text: string)

  const MIN_TIMEOUT := 0.001

  class Client {
    const memory: Memory
    var requests: seq<Request>
    var lastError: Option<string>

    constructor (memory: Memory)
      ensures this.memory == memory && requests == [] && lastError == None
    {
      this.memory := memory;
      requests, lastError := [], None;
    }

    /** `vireon_client_rpc`: 0 with the reply in the struct, or -1 with the error's text in the slot and
        the struct untouched; no other code, a timeout included. */
    method VireonClientRpc(topic: Option<seq<byte>>, payload: seq<byte>, replyTopic: Option<seq<byte>>,
                           timeout: real, sdk: Answer, out: MessageSlot?) returns (rc: int)
      modifies this, memory, out
      ensures requests == old(requests) + [Request(CStrToString(topic), payload, CStrToString(replyTopic),
                                                   if timeout < 0.001 then 0.001 else timeout)]
      ensures rc == if sdk.Reply? then 0 else -1
      ensures sdk.Reply? ==> lastError == old(lastError)
      ensures sdk.NoReply? ==> var own := "RpcError: " + sdk.text;
        lastError == Some(if '\0' in own then "error message contained null byte" else own)
      ensures if sdk.Reply? && out != null
              then Exported(old(memory.State()), memory.State(), [out.value], [sdk.message])
              else memory.State() == old(memory.State()) && (out != null ==> out.value == old(out.value))
    {
      var atLeast := if timeout < MIN_TIMEOUT then MIN_TIMEOUT else timeout;
      requests := requests + [Request(CStrToString(topic), payload, CStrToString(replyTopic), atLeast)];
      match sdk {
        case Reply(m) =>
          if out != null {
            var c := memory.SdkMsgToC(m);
            out.value := c;
          }
          rc := 0;
        case NoReply(e) =>
          lastError := Some(Sessions.StoredError("RpcError: " + e));
          rc := -1;
      }
    }

    /** PHP's `rpc`: the request's topics are the PHP strings up to their first NUL, repaired; a reply is
        decoded and freed, a refusal is thrown with its own text; the C heap is left as it was. */
    method Rpc(topic: seq<byte>, payload: seq<byte>, replyTopic: seq<byte>, timeout: real, sdk: Answer)
      returns (result: Outcome)
      modifies this, memory
      ensures requests == old(requests) + [Request(Lossy(UpToNul(topic)), payload, Lossy(UpToNul(replyTopic)),
                                                   if timeout < 0.001 then 0.001 else timeout)]
      ensures sdk.Reply? ==> result == Replied(Received(sdk.message))
      ensures sdk.NoReply? ==> var own := "RpcError: " + sdk.text;
        result == Thrown(if '\0' in own then "error message contained null byte" else own)
      ensures memory.cells == old(memory.cells)
      ensures Balanced(old(memory.State())) ==> Settled(old(memory.State()), memory.State())
    {
      UpToNulOfPhpString(topic);
      UpToNulOfPhpString(replyTopic);
      var out := new MessageSlot();
      ghost var h0 := memory.State();
      var rc := VireonClientRpc(PhpToC(topic), payload, PhpToC(replyTopic), timeout, sdk, out);
      if rc < 0 {
        assert lastError.value[0] in {'R', 'e'};
        return Thrown(Sessions.ExceptionText(lastError));
      }
      Receivers.ReleasedAfterDecoding(h0, memory.State(), out.value, sdk.message);
      var msg := Receivers.MsgFromNative(memory, out);
      result := Replied(msg);
    }
  }
}
