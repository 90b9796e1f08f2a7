/** Merging streamed text that may arrive as deltas or as growing snapshots. */
module StreamText {
  import opened Options
  import opened Text

  const DEFAULT_MESSAGE := "__default__"

  function Merge(existing: string, chunk: string): string {
    if chunk == "" then existing
    else if existing == "" || chunk == existing then chunk
    else if existing <= chunk then chunk
    else if EndsWith(existing, chunk) then existing
    else existing + chunk
  }

  function MergeAll(chunks: seq<string>): string {
    if chunks == [] then "" else Merge(MergeAll(chunks[..|chunks| - 1]), chunks[|chunks| - 1])
  }

  function Concat(chunks: seq<string>): string {
    if chunks == [] then "" else Concat(chunks[..|chunks| - 1]) + chunks[|chunks| - 1]
  }

  /** The old text stays in front, the chunk is at the end, and nothing else is added. */
  lemma MergeKeeps(existing: string, chunk: string)
    ensures existing <= Merge(existing, chunk)
    ensures EndsWith(Merge(existing, chunk), chunk)
    ensures |Merge(existing, chunk)| <= |existing| + |chunk|
  {
  }

  /** A chunk delivered twice in a row changes nothing. */
  lemma MergeReplay(existing: string, chunk: string)
    ensures Merge(Merge(existing, chunk), chunk) == Merge(existing, chunk)
  {
    var merged := Merge(existing, chunk);
    if merged <= chunk { assert merged == chunk; }
  }

  /** The chunk is appended, rather than absorbed, in exactly these cases. */
  predicate Appends(existing: string, chunk: string) {
    chunk == "" || existing == "" || (!(existing <= chunk) && !EndsWith(existing, chunk))
  }

  lemma MergeAppendsIff(existing: string, chunk: string)
    ensures Merge(existing, chunk) == existing + chunk <==> Appends(existing, chunk)
  {
    var merged := Merge(existing, chunk);
    if !Appends(existing, chunk) {
      assert |merged| < |existing + chunk|;
    }
  }

  lemma MergedIsNotEmpty(chunks: seq<string>)
    requires chunks != [] && chunks[|chunks| - 1] != ""
    ensures MergeAll(chunks) != ""
  {
    MergeKeeps(MergeAll(chunks[..|chunks| - 1]), chunks[|chunks| - 1]);
  }

  lemma {:induction false} MergeAllLength(chunks: seq<string>)
    ensures |MergeAll(chunks)| <= |Concat(chunks)|
  {
    if chunks != [] {
      MergeAllLength(chunks[..|chunks| - 1]);
      MergeKeeps(MergeAll(chunks[..|chunks| - 1]), chunks[|chunks| - 1]);
    }
  }

  /** A stream of growing snapshots yields its last snapshot. */
  lemma {:induction false} SnapshotStream(chunks: seq<string>)
    requires chunks != []
    requires forall i :: 0 < i < |chunks| ==> chunks[i - 1] <= chunks[i]
    ensures MergeAll(chunks) == chunks[|chunks| - 1]
  {
    var n := |chunks| - 1;
    if n > 0 {
      SnapshotStream(chunks[..n]);
      assert chunks[n - 1] <= chunks[n];
    }
  }

  /** Every delta counts as new text against the concatenation of those before it. */
  predicate AllNew(chunks: seq<string>) {
    forall i :: 0 <= i < |chunks| ==> Appends(Concat(chunks[..i]), chunks[i])
  }

  lemma AllNewSnoc(chunks: seq<string>)
    requires chunks != []
    ensures
      var before, last := chunks[..|chunks| - 1], chunks[|chunks| - 1];
      AllNew(chunks) <==> AllNew(before) && Appends(Concat(before), last)
  {
    hide Appends, Concat;
    var n := |chunks| - 1;
    var before := chunks[..n];
    assert forall i :: 0 <= i < n ==> before[..i] == chunks[..i] && before[i] == chunks[i];
    if AllNew(before) && Appends(Concat(before), chunks[n]) {
      forall i | 0 <= i < |chunks| ensures Appends(Concat(chunks[..i]), chunks[i]) {
        if i < n { assert Appends(Concat(before[..i]), before[i]); }
      }
    }
    if AllNew(chunks) {
      forall i | 0 <= i < n ensures Appends(Concat(before[..i]), before[i]) {
        assert Appends(Concat(chunks[..i]), chunks[i]);
      }
    }
  }

  /** A doubled letter that arrives as two deltas loses one of them. */
  lemma RepeatedDeltaIsLost()
    ensures MergeAll(["hel", "l", "o"]) == "helo" && Concat(["hel", "l", "o"]) == "hello"
  {
    var chunks := ["hel", "l", "o"];
    assert chunks[..2] == ["hel", "l"] && ["hel", "l"][..1] == ["hel"] && ["hel"][..0] == [];
    assert MergeAll(["hel"]) == "hel" && Concat(["hel"]) == "hel";
    assert EndsWith("hel", "l");
    assert MergeAll(["hel", "l"]) == "hel" && Concat(["hel", "l"]) == "hell";
  }

  /** A stream of deltas yields their concatenation exactly when every delta counts as new text. */
  lemma {:induction false} DeltaStreamIff(chunks: seq<string>)
    ensures MergeAll(chunks) == Concat(chunks) <==> AllNew(chunks)
  {
    if chunks != [] {
      hide Merge, Appends, AllNew;
      var before, last := chunks[..|chunks| - 1], chunks[|chunks| - 1];
      DeltaStreamIff(before);
      AllNewSnoc(chunks);
      MergeAppendsIff(Concat(before), last);
      if MergeAll(before) != Concat(before) { LostTextStaysLost(before, last); }
    }
  }

  lemma LostTextStaysLost(before: seq<string>, last: string)
    requires MergeAll(before) != Concat(before)
    ensures Merge(MergeAll(before), last) != Concat(before) + last
  {
    MergeAllLength(before);
    MergeKeeps(MergeAll(before), last);
    if |Merge(MergeAll(before), last)| == |Concat(before)| + |last| {
      assert Merge(MergeAll(before), last) == MergeAll(before) + last;
      assert (MergeAll(before) + last)[..|Concat(before)|] == MergeAll(before);
      assert (Concat(before) + last)[..|Concat(before)|] == Concat(before);
    }
  }

  /******* Buffers per message *******/

  /** A `messages` event after its text and message id have been extracted. */
  datatype Payload =
    | Plain(text: string)
    | Message(isTool: bool, text: string, id: Option<string>)
    | Unusable

  type Buffers = map<string, string>

  function OrElse(id: Option<string>, other: string): string {
    if id.Some? && id.value != "" then id.value else other
  }

  /** The buffer the event goes to, if it carries displayable text. */
  function Target(current: Option<string>, p: Payload): Option<string> {
    match p
    case Plain(_) => Some(OrElse(current, DEFAULT_MESSAGE))
    case Message(isTool, text, id) =>
      if isTool || text == "" then None else Some(OrElse(id, OrElse(current, DEFAULT_MESSAGE)))
    case Unusable => None
  }

  function Buffer(b: Buffers, id: string): string {
    if id in b then b[id] else ""
  }

  function Accumulate(b: Buffers, current: Option<string>, p: Payload): Buffers {
    match Target(current, p)
    case None => b
    case Some(id) => b[id := Merge(Buffer(b, id), p.text)]
  }

  function CurrentAfter(current: Option<string>, p: Payload): Option<string> {
    if Target(current, p).Some? then Target(current, p) else current
  }

  /** Only the event's own buffer changes, it keeps its text, and it ends in the new chunk. */
  lemma AccumulateIsLocal(b: Buffers, current: Option<string>, p: Payload, id: string)
    ensures Target(current, p) != Some(id) ==> Buffer(Accumulate(b, current, p), id) == Buffer(b, id)
    ensures Target(current, p) == Some(id) ==>
      Buffer(b, id) <= Buffer(Accumulate(b, current, p), id) && EndsWith(Buffer(Accumulate(b, current, p), id), p.text)
  {
    if Target(current, p) == Some(id) { MergeKeeps(Buffer(b, id), p.text); }
  }

  /** Replaying an event leaves every buffer and the current message as they are. */
  lemma AccumulateReplay(b: Buffers, current: Option<string>, p: Payload)
    ensures
      var b', current' := Accumulate(b, current, p), CurrentAfter(current, p);
      Accumulate(b', current', p) == b' && CurrentAfter(current', p) == current'
  {
    var target := Target(current, p);
    assert Target(CurrentAfter(current, p), p) == target;
    if target.Some? {
      MergeReplay(Buffer(b, target.value), p.text);
    }
  }

  class StreamBuffers {
    var buffers: Buffers

    constructor ()
      ensures buffers == map[]
    {
      buffers := map[];
    }

    method AccumulateStreamText(current: Option<string>, p: Payload) returns (text: Option<string>, id: Option<string>)
      modifies this
      ensures buffers == Accumulate(old(buffers), current, p) && id == CurrentAfter(current, p)
      ensures text.Some? <==> Target(current, p).Some?
      ensures text.Some? ==> id.Some? && text.value == Buffer(buffers, id.value)
      ensures text.None? <==> p.Unusable? || (p.Message? && (p.isTool || p.text == ""))
      ensures text.None? ==> buffers == old(buffers) && id == current
      ensures text.Some? ==>
        id == if p.Message? && p.id.Some? && p.id.value != "" then p.id
              else if current.Some? && current.value != "" then current
              else Some("__default__")
    {
      match p
      case Plain(chunk) =>
        var key := OrElse(current, DEFAULT_MESSAGE);
        buffers := buffers[key := Merge(if key in buffers then buffers[key] else "", chunk)];
        return Some(buffers[key]), Some(key);
      case Message(isTool, chunk, messageId) =>
        if isTool || chunk == "" { return None, current; }
        var key := OrElse(messageId, OrElse(current, DEFAULT_MESSAGE));
        buffers := buffers[key := Merge(if key in buffers then buffers[key] else "", chunk)];
        return Some(buffers[key]), Some(key);
      case Unusable =>
        return None, current;
    }
  }
}
