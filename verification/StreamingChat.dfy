/** The manager's streaming loop: what it publishes while the agent runs, and the final message. */
module StreamingChat {
  import opened Options
  import opened StringOps = Text
  import StreamText
  import opened TurnScan

  const MIN_INTERVAL_SECONDS: real := 0.35
  const THREAD_BUSY :=
    "This conversation is already processing another request. Please wait for it to finish and try again."
  const GENERIC_ERROR := "An error occurred while processing your request. Please try again."
  const NO_RESPONSE := "(No response from agent)"

  /** The payload of a `values` event: its messages, or a shape that cannot be iterated. */
  datatype Snapshot = Messages(messages: seq<Message>) | Malformed

  datatype Event = MessageEvent(payload: StreamText.Payload) | ValuesEvent(snapshot: Snapshot) | OtherEvent

  /** How the event stream ends after the events that were delivered. */
  datatype Ending = Completes | Fails(busy: bool) | Cancelled

  datatype Outbound = Update(text: string, at: real)
                    | Final(text: string, artifacts: seq<string>, pendingClarification: bool)

  function SnapshotText(s: Snapshot): Scan<string> {
    if s.Malformed? then Raises else Response(s.messages)
  }

  function SnapshotArtifacts(s: Snapshot): Scan<seq<string>> {
    if s.Malformed? then Raises else Artifacts(s.messages)
  }

  /******* What is on display after some events *******/

  datatype Display =
    Display(buffers: StreamText.Buffers, current: Option<string>, latest: string, values: Option<Snapshot>)

  function EmptyDisplay(): Display { Display(map[], None, "", None) }

  predicate Breaks(e: Event) {
    e.ValuesEvent? && SnapshotText(e.snapshot).Raises?
  }

  function Show(d: Display, e: Event): Display {
    match e
    case MessageEvent(p) =>
      var buffers, current := StreamText.Accumulate(d.buffers, d.current, p), StreamText.CurrentAfter(d.current, p);
      var text := if StreamText.Target(d.current, p).Some? then StreamText.Buffer(buffers, current.value) else "";
      Display(buffers, current, if text != "" then text else d.latest, d.values)
    case ValuesEvent(s) =>
      var text := SnapshotText(s);
      d.(values := Some(s), latest := if text.Value? && text.value != "" then text.value else d.latest)
    case OtherEvent => d
  }

  function Shown(events: seq<Event>): Display {
    if events == [] then EmptyDisplay() else Show(Shown(events[..|events| - 1]), events[|events| - 1])
  }

  /** The events the loop gets through: all of them, or up to the first that breaks it. */
  function Consumed(events: seq<Event>): (n: nat)
    ensures n <= |events|
    ensures forall i :: 0 <= i < n - 1 ==> !Breaks(events[i])
    ensures n < |events| ==> n > 0 && Breaks(events[n - 1])
  {
    if events == [] then 0
    else
      var n := Consumed(events[..|events| - 1]);
      if n < |events| - 1 || (n > 0 && Breaks(events[n - 1])) then n else |events|
  }

  /** The chunks that went to the buffer of message `id`, in order. */
  function ChunksFor(events: seq<Event>, id: string): seq<string> {
    if events == [] then []
    else
      var before, e := events[..|events| - 1], events[|events| - 1];
      ChunksFor(before, id)
      + (if e.MessageEvent? && StreamText.Target(Shown(before).current, e.payload) == Some(id) then [e.payload.text]
         else [])
  }

  /** Whatever the order in which messages are streamed, each buffer holds its own chunks merged. */
  lemma {:induction false} BuffersMerge(events: seq<Event>, id: string)
    ensures StreamText.Buffer(Shown(events).buffers, id) == StreamText.MergeAll(ChunksFor(events, id))
  {
    if events != [] {
      hide SnapshotText, StreamText.Merge, StreamText.Target;
      var before, e := events[..|events| - 1], events[|events| - 1];
      BuffersMerge(before, id);
      if e.MessageEvent? && StreamText.Target(Shown(before).current, e.payload) == Some(id) {
        var chunks := ChunksFor(before, id);
        assert (chunks + [e.payload.text])[..|chunks|] == chunks;
      } else {
        assert ChunksFor(events, id) == ChunksFor(before, id);
      }
    }
  }

  /** The text event `k` puts up: its message merged so far, or the response of its snapshot. */
  function TextAt(events: seq<Event>, k: nat): string
    requires k < |events|
  {
    match events[k]
    case MessageEvent(p) =>
      var id := StreamText.Target(Shown(events[..k]).current, p);
      if id.Some? then StreamText.MergeAll(ChunksFor(events[..k + 1], id.value)) else ""
    case ValuesEvent(s) => if SnapshotText(s).Value? then SnapshotText(s).value else ""
    case OtherEvent => ""
  }

  lemma LatestStep(events: seq<Event>, n: nat)
    requires n < |events|
    ensures Shown(events[..n + 1]).latest ==
            if TextAt(events, n) != "" then TextAt(events, n) else Shown(events[..n]).latest
  {
    hide SnapshotText, StreamText.Merge, StreamText.MergeAll, StreamText.Target, StreamText.Buffer;
    var e, current := events[n], Shown(events[..n]).current;
    assert events[..n + 1][..n] == events[..n];
    if e.MessageEvent? && StreamText.Target(current, e.payload).Some? {
      BuffersMerge(events[..n + 1], StreamText.Target(current, e.payload).value);
    }
  }

  /** Of the first `n` events, `k` is the last that put up a text, or none did. */
  ghost predicate PutUpLast(events: seq<Event>, n: nat, latest: string)
    requires n <= |events|
  {
    if latest == "" then forall k :: 0 <= k < n ==> TextAt(events, k) == ""
    else exists k :: 0 <= k < n && TextAt(events, k) == latest && forall j :: k < j < n ==> TextAt(events, j) == ""
  }

  lemma PutUpNext(events: seq<Event>, n: nat, latest: string)
    requires n < |events| && PutUpLast(events, n, latest)
    ensures PutUpLast(events, n + 1, if TextAt(events, n) != "" then TextAt(events, n) else latest)
  {
    hide TextAt;
    if TextAt(events, n) != "" {
      assert TextAt(events, n) == TextAt(events, n);
    } else if latest != "" {
      var k :| 0 <= k < n && TextAt(events, k) == latest && forall j :: k < j < n ==> TextAt(events, j) == "";
      assert forall j :: k < j < n + 1 ==> TextAt(events, j) == "";
    }
  }

  lemma {:induction false} DisplayUpTo(events: seq<Event>, n: nat)
    requires n <= |events|
    ensures PutUpLast(events, n, Shown(events[..n]).latest)
    decreases n
  {
    if n > 0 {
      hide Shown, TextAt, PutUpLast;
      DisplayUpTo(events, n - 1);
      LatestStep(events, n - 1);
      PutUpNext(events, n - 1, Shown(events[..n - 1]).latest);
    } else {
      assert Shown(events[..0]) == EmptyDisplay();
    }
  }

  /** What is on display is the last text that any event put up. */
  lemma DisplayIsLastText(events: seq<Event>)
    ensures
      var latest := Shown(events).latest;
      if latest == "" then forall k :: 0 <= k < |events| ==> TextAt(events, k) == ""
      else exists k :: 0 <= k < |events| && TextAt(events, k) == latest
                       && forall j :: k < j < |events| ==> TextAt(events, j) == ""
  {
    hide Shown, TextAt;
    assert events[..|events|] == events;
    DisplayUpTo(events, |events|);
  }

  /** The chunks of one message, streamed. */
  function Streamed(id: string, chunks: seq<string>): seq<Event> {
    seq(|chunks|, i requires 0 <= i < |chunks| => MessageEvent(StreamText.Message(false, chunks[i], Some(id))))
  }

  lemma {:induction false} StreamedChunks(id: string, chunks: seq<string>)
    requires id != "" && forall i :: 0 <= i < |chunks| ==> chunks[i] != ""
    ensures ChunksFor(Streamed(id, chunks), id) == chunks
  {
    hide Shown;
    if chunks != [] {
      var n := |chunks| - 1;
      StreamedChunks(id, chunks[..n]);
      assert Streamed(id, chunks)[..n] == Streamed(id, chunks[..n]);
      assert chunks == chunks[..n] + [chunks[n]];
    }
  }

  /** A message streamed alone is shown as its deltas put together, exactly when every delta counts as new text. */
  lemma StreamedMessageShown(id: string, chunks: seq<string>)
    requires id != "" && chunks != [] && forall i :: 0 <= i < |chunks| ==> chunks[i] != ""
    ensures Shown(Streamed(id, chunks)).latest == StreamText.Concat(chunks) <==> StreamText.AllNew(chunks)
  {
    var events, n := Streamed(id, chunks), |chunks| - 1;
    assert events[..n + 1] == events;
    StreamedTextAt(id, chunks);
    hide *;
    StreamText.DeltaStreamIff(chunks);
    LatestStep(events, n);
  }

  lemma StreamedTextAt(id: string, chunks: seq<string>)
    requires id != "" && chunks != [] && forall i :: 0 <= i < |chunks| ==> chunks[i] != ""
    ensures TextAt(Streamed(id, chunks), |chunks| - 1) == StreamText.MergeAll(chunks) != ""
  {
    hide Shown, StreamText.MergeAll, ChunksFor;
    var events, n := Streamed(id, chunks), |chunks| - 1;
    StreamedChunks(id, chunks);
    StreamText.MergedIsNotEmpty(chunks);
    assert events[..n + 1] == events;
  }

  /** The values kept are those of the last values event. */
  lemma {:induction false} ValuesAreLast(events: seq<Event>, s: Snapshot)
    ensures Shown(events).values == Some(s) <==>
            exists k :: 0 <= k < |events| && events[k] == ValuesEvent(s)
                        && forall j :: k < j < |events| ==> !events[j].ValuesEvent?
  {
    if events != [] {
      hide SnapshotText, StreamText.Accumulate, StreamText.Target;
      var n := |events| - 1;
      ValuesAreLast(events[..n], s);
      assert forall k :: 0 <= k < n ==> events[..n][k] == events[k];
    }
  }

  /******* Updates *******/

  /** An update is due: new text, and either the first one or late enough after the last. */
  predicate Due(latest: string, sent: seq<Outbound>, now: real) {
    && latest != ""
    && (sent == [] || (sent[|sent| - 1].text != latest && !(now - LastAt(sent) < MIN_INTERVAL_SECONDS)))
  }

  function LastAt(sent: seq<Outbound>): real
    requires sent != []
  {
    if sent[|sent| - 1].Update? then sent[|sent| - 1].at else 0.0
  }

  /** The updates published for the given events; an event that breaks the loop publishes nothing. */
  function Updates(events: seq<Event>, clock: seq<real>): seq<Outbound>
    requires |events| <= |clock|
  {
    if events == [] then []
    else
      var n := |events| - 1;
      var before := Updates(events[..n], clock);
      var latest := Shown(events).latest;
      if !Breaks(events[n]) && Due(latest, before, clock[n]) then before + [Update(latest, clock[n])] else before
  }

  /** Updates are non-empty, differ from the one before, and keep their distance in time. */
  predicate WellSpaced(sent: seq<Outbound>) {
    && (forall i :: 0 <= i < |sent| ==> sent[i].Update? && sent[i].text != "")
    && (forall i :: 0 < i < |sent| ==>
          sent[i].text != sent[i - 1].text && sent[i].at - sent[i - 1].at >= 0.35)
  }

  lemma {:induction false} UpdatesWellSpaced(events: seq<Event>, clock: seq<real>)
    requires |events| <= |clock|
    ensures WellSpaced(Updates(events, clock))
  {
    if events != [] { UpdatesWellSpaced(events[..|events| - 1], clock); }
  }

  /** Every update shows what was on display at its event. */
  lemma {:induction false} UpdatesShowDisplay(events: seq<Event>, clock: seq<real>, k: nat)
    requires |events| <= |clock| && k < |Updates(events, clock)|
    ensures exists i :: 0 <= i < |events|
                        && Updates(events, clock)[k] == Update(Shown(events[..i + 1]).latest, clock[i])
  {
    var n := |events| - 1;
    var before := Updates(events[..n], clock);
    if k < |before| {
      UpdatesShowDisplay(events[..n], clock, k);
      var i :| 0 <= i < n && before[k] == Update(Shown(events[..n][..i + 1]).latest, clock[i]);
      assert events[..n][..i + 1] == events[..i + 1];
    } else {
      assert events[..n + 1] == events;
    }
  }

  /** When all events are through, the display differs from the last update only for being too recent. */
  lemma NothingHeldBack(events: seq<Event>, clock: seq<real>)
    requires events != [] && |events| <= |clock| && !Breaks(events[|events| - 1]) && Shown(events).latest != ""
    ensures
      var sent, latest := Updates(events, clock), Shown(events).latest;
      && sent != [] && sent[|sent| - 1].Update?
      && (sent[|sent| - 1].text == latest || clock[|events| - 1] - sent[|sent| - 1].at < 0.35)
  {
    UpdatesWellSpaced(events, clock);
  }

  /******* The final message *******/

  function LastSlash(path: string): (n: nat)
    ensures n <= |path|
  {
    if path == [] then 0 else if path[|path| - 1] == '/' then |path| else LastSlash(path[..|path| - 1])
  }

  function BaseName(path: string): string {
    path[LastSlash(path)..]
  }

  function JoinNames(paths: seq<string>): string {
    if paths == [] then ""
    else if |paths| == 1 then BaseName(paths[0])
    else BaseName(paths[0]) + "\U{3001}" + JoinNames(paths[1..])
  }

  function ArtifactText(paths: seq<string>): string {
    if |paths| == 1 then "Created File: \U{1F4CE} " + BaseName(paths[0])
    else "Created Files: \U{1F4CE} " + JoinNames(paths)
  }

  function Keep(paths: seq<string>, pred: string -> bool): seq<string> {
    if paths == [] then [] else (if pred(paths[0]) then [paths[0]] else []) + Keep(paths[1..], pred)
  }

  function AppendNote(text: string, paths: seq<string>): string {
    if paths == [] then text
    else if text == "" then ArtifactText(paths)
    else text + "\n\n" + ArtifactText(paths)
  }

  /** File names are listed in the text: first those that could not be resolved, then the attachments. */
  function DeliveryText(text: string, artifacts: seq<string>, resolves: string -> bool): string {
    AppendNote(AppendNote(text, Keep(artifacts, p => !resolves(p))), Keep(artifacts, resolves))
  }

  function Fallback(latest: string, broken: bool, ending: Ending): string {
    if broken then GENERIC_ERROR
    else if ending.Fails? then (if ending.busy then THREAD_BUSY else GENERIC_ERROR)
    else if latest != "" then latest else NO_RESPONSE
  }

  /** The result the final message is built from: the last values seen, or the streamed text as one message. */
  function FinalResult(d: Display): Snapshot {
    if d.values.Some? then d.values.value else Messages([Ai(Text(d.latest), CallList([]))])
  }

  /** The final message can be built exactly if neither scan of the last values raises. */
  predicate Buildable(d: Display) {
    SnapshotText(FinalResult(d)).Value? && SnapshotArtifacts(FinalResult(d)).Value?
  }

  /** A values payload from which no final message can be built, told from its shape. */
  predicate Unreadable(s: Snapshot) {
    || s.Malformed?
    || (exists i :: TurnStart(s.messages) <= i < |s.messages| && BadCalls(s.messages[i]))
    || (exists i :: TurnStart(s.messages) <= i < |s.messages| && BadText(s.messages[i])
                    && forall j :: i < j < |s.messages| ==> TextOf(s.messages[j]) == Value(""))
  }

  /** The final message is lost if and only if the last values payload is unreadable. */
  lemma FinalLostIff(d: Display)
    ensures !Buildable(d) <==> d.values.Some? && Unreadable(d.values.value)
  {
    if d.values.None? {
      StreamedTextScans(d.latest);
    } else if d.values.value.Messages? {
      hide Response, Artifacts, TextOf, TurnStart, BadText, BadCalls;
      ResponseRaisesIff(d.values.value.messages);
      ArtifactsRaiseIff(d.values.value.messages);
    }
  }

  function FinalMessage(d: Display, broken: bool, ending: Ending, resolves: string -> bool): Outbound
    requires Buildable(d)
  {
    var result := FinalResult(d);
    var artifacts := SnapshotArtifacts(result).value;
    var text := DeliveryText(SnapshotText(result).value, artifacts, resolves);
    Final(if text != "" then text else Fallback(d.latest, broken, ending), artifacts, Clarifies(result.messages))
  }

  /**
   The final text is never empty and starts with the response. Without a response and without files it says
   what went wrong: that the thread is busy if and only if the stream failed for that, that an error occurred
   if and only if the loop broke or the stream failed otherwise; if nothing went wrong it is the latest text.
   */
  lemma FinalTextSound(d: Display, broken: bool, ending: Ending, resolves: string -> bool)
    requires Buildable(d)
    ensures
      var text, response := FinalMessage(d, broken, ending, resolves).text, SnapshotText(FinalResult(d)).value;
      && text != "" && response <= text
      && (response == "" && SnapshotArtifacts(FinalResult(d)).value == [] ==>
            && (!broken && ending == Fails(true) ==> text == THREAD_BUSY)
            && (broken || ending == Fails(false) ==> text == GENERIC_ERROR)
            && (!broken && !ending.Fails? ==> text == if d.latest != "" then d.latest else NO_RESPONSE)
            && (d.latest != THREAD_BUSY ==> (text == THREAD_BUSY <==> !broken && ending == Fails(true)))
            && (d.latest != GENERIC_ERROR ==> (text == GENERIC_ERROR <==> broken || ending == Fails(false))))
  {
    MessagesDiffer();
  }

  /** The final message carries the files of the turn and says whether the turn ended in a clarification. */
  lemma FinalCarriesTurn(d: Display, broken: bool, ending: Ending, resolves: string -> bool)
    requires Buildable(d)
    ensures
      var final := FinalMessage(d, broken, ending, resolves);
      var messages := if d.values.Some? then d.values.value.messages else [Ai(Text(d.latest), CallList([]))];
      && final.Final? && Artifacts(messages) == Value(final.artifacts)
      && (final.pendingClarification <==>
          exists i :: 0 <= i < |messages| && messages[i].Tool? && messages[i].name == "ask_clarification"
                      && forall j :: i < j < |messages| ==> Silent(messages[j]))
  {
    hide Response, Artifacts, Clarifies, Silent, DeliveryText;
    ClarifiesIff(FinalResult(d).messages);
  }

  /** The loop breaks exactly at a values payload that cannot be iterated or whose response cannot be read. */
  lemma BreaksIff(e: Event)
    ensures Breaks(e) <==>
            e.ValuesEvent? && (e.snapshot.Malformed? ||
                               var ms := e.snapshot.messages;
                               exists i :: TurnStart(ms) <= i < |ms| && BadText(ms[i])
                                           && forall j :: i < j < |ms| ==> TextOf(ms[j]) == Value(""))
  {
    hide Response, TextOf, TurnStart, BadText;
    if e.ValuesEvent? && e.snapshot.Messages? { ResponseRaisesIff(e.snapshot.messages); }
  }

  lemma MessagesDiffer()
    ensures THREAD_BUSY != GENERIC_ERROR && THREAD_BUSY != NO_RESPONSE && GENERIC_ERROR != NO_RESPONSE
  {
    assert |THREAD_BUSY| == 100;
    assert |GENERIC_ERROR| == 66;
    assert |NO_RESPONSE| == 24;
  }

  /******* The files named in the final text *******/

  /** The file name is what follows the last slash. */
  lemma BaseNameIs(path: string)
    ensures exists n :: 0 <= n <= |path| && BaseName(path) == path[n..] && (n == 0 || path[n - 1] == '/')
                        && forall i :: n <= i < |path| ==> path[i] != '/'
  {
    LastSlashIs(path);
    var n := LastSlash(path);
    assert BaseName(path) == path[n..];
  }

  lemma {:induction false} LastSlashIs(path: string)
    ensures LastSlash(path) > 0 ==> path[LastSlash(path) - 1] == '/'
    ensures forall i :: LastSlash(path) <= i < |path| ==> path[i] != '/'
  {
    if path != [] && path[|path| - 1] != '/' { LastSlashIs(path[..|path| - 1]); }
  }

  /** The names in a listing. */
  function NamesIn(listing: string): seq<string>
    decreases |listing|
  {
    match Partition(listing, '\U{3001}')
    case None => [listing]
    case Some(parts) => [parts.0] + NamesIn(parts.1)
  }

  /** A listing reads back as the names of the files, in order. */
  lemma {:induction false} NamesReadBack(paths: seq<string>)
    requires paths != [] && forall i :: 0 <= i < |paths| ==> '\U{3001}' !in BaseName(paths[i])
    ensures NamesIn(JoinNames(paths)) == seq(|paths|, i requires 0 <= i < |paths| => BaseName(paths[i]))
  {
    var name := BaseName(paths[0]);
    if |paths| == 1 {
      PartitionSplits(name, '\U{3001}');
    } else {
      NamesReadBack(paths[1..]);
      PartitionOf(name, '\U{3001}', JoinNames(paths[1..]));
    }
  }

  /** The files kept are those that satisfy the condition, in order. */
  lemma {:induction false} KeepsInOrder(paths: seq<string>, more: seq<string>, pred: string -> bool)
    ensures Keep(paths + more, pred) == Keep(paths, pred) + Keep(more, pred)
    ensures forall p :: p in Keep(paths, pred) <==> p in paths && pred(p)
  {
    if paths == [] {
      assert paths + more == more;
    } else {
      assert (paths + more)[1..] == paths[1..] + more;
      KeepsInOrder(paths[1..], more, pred);
      assert paths == [paths[0]] + paths[1..];
    }
  }

  /** The parts that are there, a blank line between them. */
  function Paragraphs(parts: seq<string>): string {
    if parts == [] then ""
    else
      var before, last := Paragraphs(parts[..|parts| - 1]), parts[|parts| - 1];
      if last == "" then before else if before == "" then last else before + "\n\n" + last
  }

  function Listing(paths: seq<string>): string {
    if paths == [] then ""
    else (if |paths| == 1 then "Created File: \U{1F4CE} " else "Created Files: \U{1F4CE} ") + JoinNames(paths)
  }

  /** The final text: the response, then the files that could not be resolved, then the attached ones. */
  lemma DeliveryIsParagraphs(text: string, artifacts: seq<string>, resolves: string -> bool)
    ensures DeliveryText(text, artifacts, resolves) ==
            Paragraphs([text, Listing(Keep(artifacts, p => !resolves(p))), Listing(Keep(artifacts, resolves))])
  {
    hide JoinNames, Keep;
    var a, b := Listing(Keep(artifacts, p => !resolves(p))), Listing(Keep(artifacts, resolves));
    assert [text, a, b][..2] == [text, a] && [text, a][..1] == [text] && [text][..0] == [];
    assert Paragraphs([text]) == text;
    ListingIs(Keep(artifacts, p => !resolves(p)));
    ListingIs(Keep(artifacts, resolves));
  }

  lemma NothingToDeliver(resolves: string -> bool)
    ensures DeliveryText("", [], resolves) == ""
  {
  }

  lemma ListingIs(paths: seq<string>)
    ensures paths != [] ==> Listing(paths) == ArtifactText(paths) != ""
  {
    if |paths| == 1 { assert JoinNames(paths) == BaseName(paths[0]); }
  }

  /** Streamed text without a values event is always deliverable, and delivered as it was streamed. */
  lemma StreamedTextIsFinal(d: Display, broken: bool, ending: Ending, resolves: string -> bool)
    requires d.values.None?
    ensures Buildable(d)
    ensures d.latest != "" ==> FinalMessage(d, broken, ending, resolves).text == d.latest
  {
    StreamedTextScans(d.latest);
  }

  lemma StreamedTextScans(latest: string)
    ensures var ms := [Ai(Text(latest), CallList([]))]; Response(ms) == Value(latest) && Artifacts(ms) == Value([])
  {
    var m := Ai(Text(latest), CallList([]));
    ArtifactsOfOne(m);
    assert [m][..0] == [];
  }

  /******* The loop *******/

  lemma NothingYet(events: seq<Event>, clock: seq<real>)
    requires |events| <= |clock|
    ensures Shown(events[..0]) == EmptyDisplay() && Updates(events[..0], clock) == [] && Consumed(events[..0]) == 0
  {
  }

  lemma OneMore(events: seq<Event>, clock: seq<real>, i: nat)
    requires i < |events| <= |clock|
    ensures Shown(events[..i + 1]) == Show(Shown(events[..i]), events[i])
    ensures Consumed(events[..i]) == i && (i == 0 || !Breaks(events[i - 1])) ==> Consumed(events[..i + 1]) == i + 1
    ensures
      var before, latest := Updates(events[..i], clock), Show(Shown(events[..i]), events[i]).latest;
      Updates(events[..i + 1], clock) ==
      if !Breaks(events[i]) && Due(latest, before, clock[i]) then before + [Update(latest, clock[i])] else before
  {
    hide Show, Breaks, Due;
    assert events[..i + 1][..i] == events[..i];
  }

  /** The event loop: publishes the updates and stops early at an event that breaks it. */
  method StreamEvents(events: seq<Event>, clock: seq<real>)
    returns (sent: seq<Outbound>, latest: string, values: Option<Snapshot>, broken: bool)
    requires |events| <= |clock|
    ensures sent == Updates(events[..Consumed(events)], clock)
    ensures var d := Shown(events[..Consumed(events)]); latest == d.latest && values == d.values
    ensures broken <==> Consumed(events) > 0 && Breaks(events[Consumed(events) - 1])
  {
    hide Response, Artifacts, Shown, Updates, Consumed;
    var streamed := new StreamText.StreamBuffers();
    var current: Option<string> := None;
    var lastText, lastAt := "", 0.0;
    sent, latest, values, broken := [], "", None, false;
    var i := 0;
    NothingYet(events, clock);
    while i < |events| && !broken
      invariant 0 <= i <= |events|
      invariant Shown(events[..i]) == Display(streamed.buffers, current, latest, values)
      invariant sent == Updates(events[..i], clock)
      invariant broken <==> i > 0 && Breaks(events[i - 1])
      invariant Consumed(events[..i]) == i
      invariant lastText == (if sent == [] then "" else sent[|sent| - 1].text)
      invariant sent != [] ==> lastAt == LastAt(sent) && lastText != ""
      decreases |events| - i
    {
      OneMore(events, clock, i);
      match events[i] {
        case MessageEvent(p) =>
          var text;
          text, current := streamed.AccumulateStreamText(current, p);
          if text.Some? && text.value != "" { latest := text.value; }
        case ValuesEvent(s) =>
          values := Some(s);
          var text := SnapshotText(s);
          if text.Raises? { broken := true; } else if text.value != "" { latest := text.value; }
        case OtherEvent =>
      }
      if !broken && latest != "" && latest != lastText
         && !(lastText != "" && clock[i] - lastAt < MIN_INTERVAL_SECONDS) {
        sent := sent + [Update(latest, clock[i])];
        lastText, lastAt := latest, clock[i];
      }
      i := i + 1;
    }
    ConsumedPrefix(events, i);
  }

  /**
   The whole of `_handle_streaming_chat`: updates in the order of events, then exactly one final message,
   unless a scan of the last values raises in the `finally` block, in which case there is none.
   */
  method HandleStreamingChat(events: seq<Event>, clock: seq<real>, ending: Ending, resolves: string -> bool)
    returns (sent: seq<Outbound>, raised: bool)
    requires |events| <= |clock|
    ensures
      var n := Consumed(events);
      var d, updates := Shown(events[..n]), Updates(events[..n], clock);
      var broken := n > 0 && Breaks(events[n - 1]);
      && WellSpaced(updates)
      && (raised <==> !Buildable(d))
      && (raised <==> d.values.Some? && Unreadable(d.values.value))
      && (raised ==> sent == updates)
      && (!raised ==> sent == updates + [FinalMessage(d, broken, ending, resolves)])
      && (!raised ==> sent[|sent| - 1].Final? && SnapshotArtifacts(FinalResult(d)) == Value(sent[|sent| - 1].artifacts)
                      && (sent[|sent| - 1].pendingClarification <==> Clarifies(FinalResult(d).messages)))
      && (!raised && SnapshotText(FinalResult(d)).value == "" && SnapshotArtifacts(FinalResult(d)).value == [] ==>
            sent[|sent| - 1].text == if broken then GENERIC_ERROR
                                     else if ending == Fails(true) then THREAD_BUSY
                                     else if ending == Fails(false) then GENERIC_ERROR
                                     else if d.latest != "" then d.latest else NO_RESPONSE)
  {
    hide Response, Artifacts, Updates, Shown, DeliveryText, Unreadable;
    var latest, values, error;
    sent, latest, values, error := StreamEvents(events, clock);
    ghost var n := Consumed(events);
    UpdatesWellSpaced(events[..n], clock);
    FinalLostIff(Shown(events[..n]));
    NothingToDeliver(resolves);
    raised := false;
    var result := if values.Some? then values.value else Messages([Ai(Text(latest), CallList([]))]);
    var text, artifacts := SnapshotText(result), SnapshotArtifacts(result);
    if text.Raises? || artifacts.Raises? {
      raised := true;
      return;
    }
    var pending := HasCurrentTurnClarification(result.messages);
    var response := DeliveryText(text.value, artifacts.value, resolves);
    if response == "" {
      if error { response := GENERIC_ERROR; }
      else if ending.Fails? { response := if ending.busy then THREAD_BUSY else GENERIC_ERROR; }
      else { response := if latest != "" then latest else NO_RESPONSE; }
    }
    sent := sent + [Final(response, artifacts.value, pending)];
  }

  lemma {:induction false} ConsumedPrefix(events: seq<Event>, i: nat)
    requires i <= |events| && Consumed(events[..i]) == i
    requires i < |events| ==> i > 0 && Breaks(events[i - 1])
    ensures Consumed(events) == i
    decreases events
  {
    if i == |events| {
      assert events[..i] == events;
    } else {
      var n := |events| - 1;
      assert events[..n][..i] == events[..i];
      ConsumedPrefix(events[..n], i);
    }
  }

  /** "Exactly one final" fails for a values payload that cannot be iterated. */
  lemma MalformedValuesLoseFinal()
    ensures !Buildable(Shown([ValuesEvent(Malformed)]))
  {
    assert Shown([ValuesEvent(Malformed)]) == EmptyDisplay().(values := Some(Malformed)) by {
      assert [ValuesEvent(Malformed)][..0] == [];
    }
  }
}
