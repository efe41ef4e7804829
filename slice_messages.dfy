/**
 * Slicing a thread's message history at an anchor message: everything up to
 * and including the first message with the anchor id, extended over the
 * assistant messages that immediately follow it.
 */
module SliceMessages {
  import opened Wrappers

  /** A UI message: its id, its author role, and its remaining fields, which the slicer never reads. */
  datatype Message<T> = Message(id: string, role: string, body: T)

  const NotFound: string :=
    "useVercelAIThreadState: Message not found. This is likely an internal bug in assistant-ui."

  /** `findIndex` with the test `m.id === id`: the first index holding that id, or -1. */
  function FindIndex<T>(messages: seq<Message<T>>, id: string): (k: int)
    ensures -1 <= k < |messages|
    ensures k == -1 <==> forall i :: 0 <= i < |messages| ==> messages[i].id != id
    ensures k >= 0 ==> messages[k].id == id && forall i :: 0 <= i < k ==> messages[i].id != id
    decreases |messages|
  {
    if messages == [] then -1
    else if messages[0].id == id then 0
    else
      var k := FindIndex(messages[1..], id);
      if k == -1 then -1 else k + 1
  }

  /**
   * The history up to the anchor `messageId`. No anchor gives the empty
   * history; an anchor that no message carries is an error. Otherwise the
   * result is the prefix that ends at the first message carrying the anchor
   * id, extended over the longest run of assistant messages right after it.
   */
  method SliceMessagesUntil<T>(messages: seq<Message<T>>, messageId: Option<string>)
    returns (r: Result<seq<Message<T>>>)
    ensures messageId.None? ==> r == Success([])
    ensures messageId.Some? ==>
      (r.Failure? <==> forall i :: 0 <= i < |messages| ==> messages[i].id != messageId.value)
    ensures r.Failure? ==> r.error == NotFound
    ensures messageId.Some? && r.Success? ==>
      var anchor := FindIndex(messages, messageId.value);
      var n := |r.value|;
      && anchor < n <= |messages|
      && r.value == messages[..n]
      && (forall i :: anchor < i < n ==> messages[i].role == "assistant")
      && (n < |messages| ==> messages[n].role != "assistant")
  {
    if messageId.None? {
      return Success([]);
    }
    var messageIdx := FindIndex(messages, messageId.value);
    if messageIdx == -1 {
      return Failure(NotFound);
    }
    ghost var anchor := messageIdx;
    while messageIdx + 1 < |messages| && messages[messageIdx + 1].role == "assistant"
      invariant anchor <= messageIdx < |messages|
      invariant forall i :: anchor < i <= messageIdx ==> messages[i].role == "assistant"
      decreases |messages| - messageIdx
    {
      messageIdx := messageIdx + 1;
    }
    return Success(messages[..messageIdx + 1]);
  }
}
