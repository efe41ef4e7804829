/**
 * The assistant encoder stream: a per-part transform from provider stream
 * parts to canonical assistant-stream chunks. Its only state is the set of
 * tool-call ids for which a ToolCallBegin chunk has already been emitted.
 *
 * Encoder.Transform is the per-part transform as the stream runs it;
 * Step is the same projection as a function of the announced set, and
 * RunFrom/EncodeAll fold it over a whole stream, so that the lemmas can speak
 * about every chunk the stream ever emits.
 */
module AssistantEncoder {
  import opened Wrappers
  import C = StreamChunk
  import opened StreamPart

  const UnhandledPrefix: string := "Unhandled chunk type: "

  /** Message of the error thrown for an unhandled part type: the fixed prefix, then the type, which can be read back. */
  function UnhandledMessage(tag: string): (m: string)
    ensures |m| == |UnhandledPrefix| + |tag|
    ensures m[..|UnhandledPrefix|] == UnhandledPrefix && m[|UnhandledPrefix|..] == tag
  {
    UnhandledPrefix + tag
  }

  /** Parts that are forwarded as exactly one chunk, whatever the state. */
  predicate Forwarded<V>(part: Part<V>) {
    part.Reasoning? || part.Source? || part.ToolResult? || part.StepFinish?
    || part.Finish? || part.Error? || part.Annotations? || part.Data?
  }

  /** `chunk` has the canonical type matching `part` and carries its payload unchanged. */
  ghost predicate Carries<V>(part: Part<V>, chunk: C.Chunk<V>) {
    match part
    case Reasoning(t) => chunk == C.ReasoningDelta(t)
    case Source(s) => chunk == C.Source(s)
    case ToolResult(id, res) => chunk == C.ToolCallResult(id, res)
    case StepFinish(rest) => chunk == C.FinishStep(rest)
    case Finish(rest) => chunk == C.FinishMessage(rest)
    case Error(e) => chunk == C.Error(e)
    case Annotations(a) => chunk == C.Annotation(a)
    case Data(d) => chunk == C.Data(d)
    case _ => false
  }

  /** What one part does: emit chunks and move to a new announced set, or throw. */
  datatype StepResult<V> = Emit(chunks: seq<C.Chunk<V>>, seen: set<string>) | Unhandled(tag: string)

  /** The projection of one part, given the set of tool-call ids already announced. */
  function Step<V>(seen: set<string>, part: Part<V>): (r: StepResult<V>)
    ensures r.Unhandled? <==> part.Unknown?
    ensures r.Unhandled? ==> r.tag == part.tag
    ensures r.Emit? ==> |r.chunks| <= 2 && seen <= r.seen
    ensures r.Emit? && !part.ToolCallDelta? ==> r.seen == seen
    ensures part.TextDelta? ==>
      r.Emit? && r.chunks == if part.textDelta == "" then [] else [C.TextDelta(part.textDelta)]
    ensures part.ToolCallDelta? && part.toolCallId !in seen ==>
      && r.Emit?
      && r.chunks == [C.ToolCallBegin(part.toolCallId, part.toolName),
                      C.ToolCallDelta(part.toolCallId, part.argsTextDelta)]
      && r.seen == seen + {part.toolCallId}
    ensures part.ToolCallDelta? && part.toolCallId in seen ==>
      r.Emit? && r.chunks == [C.ToolCallDelta(part.toolCallId, part.argsTextDelta)] && r.seen == seen
    ensures part.ToolCall? || part.ResponseMetadata? ==> r.Emit? && r.chunks == []
    ensures Forwarded(part) ==> r.Emit? && |r.chunks| == 1 && Carries(part, r.chunks[0])
  {
    match part
    case Reasoning(t) => Emit([C.ReasoningDelta(t)], seen)
    case Source(s) => Emit([C.Source(s)], seen)
    case TextDelta(t) => if t == "" then Emit([], seen) else Emit([C.TextDelta(t)], seen)
    case ToolCallDelta(id, name, args) =>
      var begin := if id in seen then [] else [C.ToolCallBegin(id, name)];
      Emit(begin + [C.ToolCallDelta(id, args)], seen + {id})
    case Annotations(a) => Emit([C.Annotation(a)], seen)
    case Data(d) => Emit([C.Data(d)], seen)
    case ToolCall(_) => Emit([], seen)
    case ResponseMetadata(_) => Emit([], seen)
    case ToolResult(id, res) => Emit([C.ToolCallResult(id, res)], seen)
    case StepFinish(rest) => Emit([C.FinishStep(rest)], seen)
    case Finish(rest) => Emit([C.FinishMessage(rest)], seen)
    case Error(e) => Emit([C.Error(e)], seen)
    case Unknown(tag) => Unhandled(tag)
  }

  /** The per-stream encoder: the announced set lives as long as the stream. */
  class Encoder<V> {
    var seen: set<string>

    constructor ()
      ensures seen == {}
    {
      seen := {};
    }

    /**
     * Transform one part: the chunks it enqueues, in order, or the error it
     * throws. Only a tool-call delta with a new id changes `seen`.
     */
    method Transform(part: Part<V>) returns (out: Result<seq<C.Chunk<V>>>)
      modifies this
      ensures match Step(old(seen), part)
        case Emit(chunks, s) => out == Success(chunks) && seen == s
        case Unhandled(tag) => out == Failure(UnhandledMessage(tag)) && seen == old(seen)
    {
      var enqueued: seq<C.Chunk<V>> := [];
      match part {
        case Reasoning(t) =>
          enqueued := enqueued + [C.ReasoningDelta(t)];
        case Source(s) =>
          enqueued := enqueued + [C.Source(s)];
        case TextDelta(t) =>
          if t != "" {
            enqueued := enqueued + [C.TextDelta(t)];
          }
        case ToolCallDelta(id, name, args) =>
          if id !in seen {
            seen := seen + {id};
            enqueued := enqueued + [C.ToolCallBegin(id, name)];
          }
          enqueued := enqueued + [C.ToolCallDelta(id, args)];
        case Annotations(a) =>
          enqueued := enqueued + [C.Annotation(a)];
        case Data(d) =>
          enqueued := enqueued + [C.Data(d)];
        case ToolCall(_) =>
        case ResponseMetadata(_) =>
        case ToolResult(id, res) =>
          enqueued := enqueued + [C.ToolCallResult(id, res)];
        case StepFinish(rest) =>
          enqueued := enqueued + [C.FinishStep(rest)];
        case Finish(rest) =>
          enqueued := enqueued + [C.FinishMessage(rest)];
        case Error(e) =>
          enqueued := enqueued + [C.Error(e)];
        case Unknown(tag) =>
          return Failure(UnhandledMessage(tag));
      }
      assert Step(old(seen), part) == Emit(enqueued, seen);
      out := Success(enqueued);
    }
  }

  // ---------------------------------------------------------------------
  // The whole stream
  // ---------------------------------------------------------------------

  /**
   * The state of a stream after some parts: every chunk emitted so far, the
   * announced set, and the error the stream ended with, if it did. Once a
   * part has thrown the stream is errored and transforms nothing more.
   */
  datatype Run<V> = Run(chunks: seq<C.Chunk<V>>, seen: set<string>, failure: Option<string>)

  function Initial<V>(): Run<V> {
    Run([], {}, None)
  }

  /** Deliver one more part to the stream. */
  function Feed<V>(run: Run<V>, part: Part<V>): (r: Run<V>)
    ensures run.failure.Some? ==> r == run
    ensures run.chunks <= r.chunks && |r.chunks| <= |run.chunks| + 2
    ensures run.seen <= r.seen
  {
    if run.failure.Some? then run
    else match Step(run.seen, part)
      case Unhandled(tag) => Run(run.chunks, run.seen, Some(UnhandledMessage(tag)))
      case Emit(cs, s) => Run(run.chunks + cs, s, None)
  }

  predicate AllKnown<V>(parts: seq<Part<V>>) {
    forall i :: 0 <= i < |parts| ==> !parts[i].Unknown?
  }

  /** The ids of the tool-call delta parts in `parts`. */
  function DeltaIds<V>(parts: seq<Part<V>>): set<string> {
    if parts == [] then {}
    else
      var last := parts[|parts| - 1];
      DeltaIds(parts[..|parts| - 1]) + if last.ToolCallDelta? then {last.toolCallId} else {}
  }

  /**
   * Deliver `parts` in order. Output already emitted is never retracted; the
   * stream ends in error exactly when some part is of an unknown type; while
   * it has not, the announced set grows by exactly the ids of the deltas.
   */
  function RunFrom<V>(run: Run<V>, parts: seq<Part<V>>): (r: Run<V>)
    ensures run.chunks <= r.chunks
    ensures run.failure.Some? ==> r == run
    ensures run.failure.None? ==> (r.failure.None? <==> AllKnown(parts))
    ensures r.failure.None? ==> r.seen == run.seen + DeltaIds(parts)
    decreases |parts|
  {
    if parts == [] then run
    else
      var before := RunFrom(run, parts[..|parts| - 1]);
      assert AllKnown(parts) <==> AllKnown(parts[..|parts| - 1]) && !parts[|parts| - 1].Unknown?;
      Feed(before, parts[|parts| - 1])
  }

  /**
   * The stream from its start, with nothing announced yet: it ends in error
   * exactly when some part has an unknown type, and otherwise the announced
   * set is exactly the ids of the tool-call delta parts.
   */
  function EncodeAll<V>(parts: seq<Part<V>>): (r: Run<V>)
    ensures r.failure.None? <==> AllKnown(parts)
    ensures r.failure.None? ==> r.seen == DeltaIds(parts)
  {
    RunFrom(Initial(), parts)
  }

  /** Delivering `a` and then `b` is delivering `a + b`: the transform is incremental. */
  lemma {:induction false} RunFromAppend<V>(run: Run<V>, a: seq<Part<V>>, b: seq<Part<V>>)
    ensures RunFrom(run, a + b) == RunFrom(RunFrom(run, a), b)
    decreases |b|
  {
    if b == [] {
      assert a + b == a;
    } else {
      var ab := a + b;
      assert ab[..|ab| - 1] == a + b[..|b| - 1];
      assert ab[|ab| - 1] == b[|b| - 1];
      RunFromAppend(run, a, b[..|b| - 1]);
    }
  }

  /**
   * A part of an unknown type throws "Unhandled chunk type", emits nothing,
   * and no later part emits anything either.
   */
  lemma UnknownStopsStream<V>(parts: seq<Part<V>>, k: nat)
    requires k < |parts| && parts[k].Unknown? && AllKnown(parts[..k])
    ensures EncodeAll(parts).chunks == EncodeAll(parts[..k]).chunks
    ensures EncodeAll(parts).seen == EncodeAll(parts[..k]).seen
    ensures EncodeAll(parts).failure == Some(UnhandledMessage(parts[k].tag))
  {
    var head := parts[..k + 1];
    assert parts == head + parts[k + 1..];
    assert head[..k] == parts[..k];
    RunFromAppend(Initial(), head, parts[k + 1..]);
  }

  // ---------------------------------------------------------------------
  // Tool-call announcements over the whole stream
  // ---------------------------------------------------------------------

  /** Ids of the ToolCallBegin chunks in `cs`. */
  function BeginIds<V>(cs: seq<C.Chunk<V>>): set<string> {
    if cs == [] then {}
    else
      var last := cs[|cs| - 1];
      BeginIds(cs[..|cs| - 1]) + if last.ToolCallBegin? then {last.toolCallId} else {}
  }

  /** Ids of the ToolCallDelta chunks in `cs`. */
  function DeltaChunkIds<V>(cs: seq<C.Chunk<V>>): set<string> {
    if cs == [] then {}
    else
      var last := cs[|cs| - 1];
      DeltaChunkIds(cs[..|cs| - 1]) + if last.ToolCallDelta? then {last.toolCallId} else {}
  }

  /** Number of ToolCallBegin chunks for `id` in `cs`. */
  function CountBegins<V>(cs: seq<C.Chunk<V>>, id: string): nat {
    if cs == [] then 0
    else
      var last := cs[|cs| - 1];
      CountBegins(cs[..|cs| - 1], id) + if last.ToolCallBegin? && last.toolCallId == id then 1 else 0
  }

  lemma {:induction false} ChunkIdsAppend<V>(a: seq<C.Chunk<V>>, b: seq<C.Chunk<V>>)
    ensures BeginIds(a + b) == BeginIds(a) + BeginIds(b)
    ensures DeltaChunkIds(a + b) == DeltaChunkIds(a) + DeltaChunkIds(b)
    ensures forall id :: CountBegins(a + b, id) == CountBegins(a, id) + CountBegins(b, id)
    decreases |b|
  {
    if b == [] {
      assert a + b == a;
    } else {
      var ab := a + b;
      assert ab[..|ab| - 1] == a + b[..|b| - 1];
      assert ab[|ab| - 1] == b[|b| - 1];
      ChunkIdsAppend(a, b[..|b| - 1]);
    }
  }

  /**
   * The announcement discipline of an emitted chunk sequence whose announced
   * set is `seen`: the ids with a begin, and the ids with a delta, are both
   * exactly `seen`; each of them has exactly one begin; a begin is followed
   * immediately by a delta for the same id and comes before every delta for
   * that id; every delta has its begin earlier.
   */
  ghost predicate Announced<V>(cs: seq<C.Chunk<V>>, seen: set<string>) {
    && BeginIds(cs) == seen
    && DeltaChunkIds(cs) == seen
    && (forall id :: CountBegins(cs, id) == if id in seen then 1 else 0)
    && BeginsPrecede(cs)
  }

  /** The order part of the discipline: a begin is followed by its delta, precedes every delta of its id, and every delta has a begin before it. */
  ghost predicate BeginsPrecede<V>(cs: seq<C.Chunk<V>>) {
    && (forall j :: 0 <= j < |cs| && cs[j].ToolCallBegin? ==>
          j + 1 < |cs| && cs[j + 1].ToolCallDelta? && cs[j + 1].toolCallId == cs[j].toolCallId)
    && (forall j :: 0 <= j < |cs| && cs[j].ToolCallBegin? ==>
          cs[j].toolCallId !in DeltaChunkIds(cs[..j]))
    && (forall j :: 0 <= j < |cs| && cs[j].ToolCallDelta? ==>
          cs[j].toolCallId in BeginIds(cs[..j]))
  }

  /** Chunks that neither begin nor continue a tool call leave the discipline alone. */
  lemma AnnouncedAppendOther<V>(cs: seq<C.Chunk<V>>, seen: set<string>, e: seq<C.Chunk<V>>)
    requires Announced(cs, seen)
    requires forall j :: 0 <= j < |e| ==> !e[j].ToolCallBegin? && !e[j].ToolCallDelta?
    ensures Announced(cs + e, seen)
  {
    ChunkIdsAppend(cs, e);
    NoToolChunks(e);
    var ce := cs + e;
    forall j | 0 <= j < |cs|
      ensures ce[..j] == cs[..j]
    {
    }
  }

  lemma {:induction false} NoToolChunks<V>(e: seq<C.Chunk<V>>)
    requires forall j :: 0 <= j < |e| ==> !e[j].ToolCallBegin? && !e[j].ToolCallDelta?
    ensures BeginIds(e) == {} && DeltaChunkIds(e) == {}
    ensures forall id :: CountBegins(e, id) == 0
  {
    if e != [] {
      NoToolChunks(e[..|e| - 1]);
    }
  }

  lemma AnnouncedAppendDelta<V>(cs: seq<C.Chunk<V>>, seen: set<string>, id: string, args: string)
    requires Announced(cs, seen) && id in seen
    ensures Announced(cs + [C.ToolCallDelta(id, args)], seen)
  {
    var e := [C.ToolCallDelta(id, args)];
    ChunkIdsAppend(cs, e);
    assert e[..0] == [];
    var ce := cs + e;
    assert ce[..|cs|] == cs;
    forall j | 0 <= j < |cs|
      ensures ce[..j] == cs[..j]
    {
    }
  }

  lemma AnnouncedAppendBegin<V>(cs: seq<C.Chunk<V>>, seen: set<string>, id: string, name: string, args: string)
    requires Announced(cs, seen) && id !in seen
    ensures Announced(cs + [C.ToolCallBegin(id, name), C.ToolCallDelta(id, args)], seen + {id})
  {
    var e: seq<C.Chunk<V>> := [C.ToolCallBegin(id, name), C.ToolCallDelta(id, args)];
    ChunkIdsAppend(cs, e);
    BeginPairIds(id, name, args, e);
    PrecedeAppendBegin(cs, id, name, args);
  }

  /** The begin-and-delta pair holds one begin and one delta, both for `id`. */
  lemma BeginPairIds<V>(id: string, name: string, args: string, e: seq<C.Chunk<V>>)
    requires e == [C.ToolCallBegin(id, name), C.ToolCallDelta(id, args)]
    ensures BeginIds(e) == {id} && DeltaChunkIds(e) == {id}
    ensures forall x :: CountBegins(e, x) == if x == id then 1 else 0
  {
    var b := e[..1];
    assert b == [C.ToolCallBegin(id, name)];
    assert e[..|e| - 1] == b;
    assert b[..|b| - 1] == [];
    assert BeginIds(b) == BeginIds(b[..0]) + {id};
    assert DeltaChunkIds(b) == DeltaChunkIds(b[..0]);
    assert BeginIds(e) == BeginIds(b);
    assert DeltaChunkIds(e) == DeltaChunkIds(b) + {id};
    forall x
      ensures CountBegins(b, x) == if x == id then 1 else 0
    {
      assert CountBegins(b, x) == CountBegins(b[..0], x) + if x == id then 1 else 0;
    }
  }

  /** A new begin and its delta, for an id with no delta yet, keep the order part of the discipline. */
  lemma PrecedeAppendBegin<V>(cs: seq<C.Chunk<V>>, id: string, name: string, args: string)
    requires BeginsPrecede(cs) && id !in DeltaChunkIds(cs)
    ensures BeginsPrecede(cs + [C.ToolCallBegin(id, name), C.ToolCallDelta(id, args)])
  {
    var b: seq<C.Chunk<V>> := [C.ToolCallBegin(id, name)];
    var ce := cs + [C.ToolCallBegin(id, name), C.ToolCallDelta(id, args)];
    assert ce[..|cs|] == cs;
    assert ce[..|cs| + 1] == cs + b;
    ChunkIdsAppend(cs, b);
    assert b[..0] == [];
    assert id in BeginIds(ce[..|cs| + 1]);
    forall j | 0 <= j < |ce| && ce[j].ToolCallBegin?
      ensures j + 1 < |ce| && ce[j + 1].ToolCallDelta? && ce[j + 1].toolCallId == ce[j].toolCallId
    {
      if j < |cs| {
        assert ce[j] == cs[j];
        assert ce[j + 1] == cs[j + 1];
      }
    }
    forall j | 0 <= j < |ce| && ce[j].ToolCallBegin?
      ensures ce[j].toolCallId !in DeltaChunkIds(ce[..j])
    {
      if j < |cs| {
        assert ce[j] == cs[j] && ce[..j] == cs[..j];
      }
    }
    forall j | 0 <= j < |ce| && ce[j].ToolCallDelta?
      ensures ce[j].toolCallId in BeginIds(ce[..j])
    {
      if j < |cs| {
        assert ce[j] == cs[j] && ce[..j] == cs[..j];
      }
    }
  }

  lemma FeedAnnounced<V>(run: Run<V>, part: Part<V>)
    requires Announced(run.chunks, run.seen)
    ensures Announced(Feed(run, part).chunks, Feed(run, part).seen)
  {
    var next := Feed(run, part);
    if run.failure.None? && !part.Unknown? {
      var e := Step(run.seen, part).chunks;
      assert next.chunks == run.chunks + e;
      if part.ToolCallDelta? {
        var id, args := part.toolCallId, part.argsTextDelta;
        if id in run.seen {
          assert e == [C.ToolCallDelta(id, args)] && next.seen == run.seen;
          AnnouncedAppendDelta(run.chunks, run.seen, id, args);
        } else {
          assert e == [C.ToolCallBegin(id, part.toolName), C.ToolCallDelta(id, args)];
          assert next.seen == run.seen + {id};
          AnnouncedAppendBegin(run.chunks, run.seen, id, part.toolName, args);
        }
      } else {
        assert next.seen == run.seen;
        AnnouncedAppendOther(run.chunks, run.seen, e);
      }
    }
  }

  /**
   * Over any stream, every tool-call id gets exactly one ToolCallBegin,
   * placed immediately before the first ToolCallDelta for that id, and the
   * announced set is exactly the ids that have a begin.
   */
  lemma {:induction false} StreamAnnounced<V>(parts: seq<Part<V>>)
    ensures Announced(EncodeAll(parts).chunks, EncodeAll(parts).seen)
    decreases |parts|
  {
    if parts == [] {
    } else {
      StreamAnnounced(parts[..|parts| - 1]);
      FeedAnnounced(EncodeAll(parts[..|parts| - 1]), parts[|parts| - 1]);
    }
  }

  /**
   * For a stream of known parts: each id that appears in some tool-call
   * delta part has exactly one ToolCallBegin among the emitted chunks, and
   * no other id has one.
   */
  lemma OneBeginPerDeltaId<V>(parts: seq<Part<V>>, id: string)
    requires AllKnown(parts)
    ensures CountBegins(EncodeAll(parts).chunks, id) == if id in DeltaIds(parts) then 1 else 0
    ensures EncodeAll(parts).seen == DeltaIds(parts)
  {
    StreamAnnounced(parts);
  }
}
