/**
 Telegram delivery: one message per run is edited in place while the agent streams, then finalised and
 continued in follow-up messages. The platform may refuse any call, and may even apply a call it reports
 as failed.
 */
module Telegram {
  import opened Options

  const MAX_MESSAGE_LENGTH: nat := 4096
  const EDIT_INTERVAL: real := 1.0
  const GROUP_EDIT_INTERVAL: real := 3.0
  const MAX_TRACKED: nat := 256
  const MAX_RETRIES: nat := 3
  const ELLIPSIS := '\U{2026}'

  type MessageId = nat

  /******* Splitting *******/

  function Display(text: string): (d: string)
    ensures |text| <= 4096 ==> d == text
    ensures |text| > 4096 ==> |d| == 4096 && d[..4095] <= text && d[4095] == '\U{2026}'
  {
    if |text| > MAX_MESSAGE_LENGTH then text[..MAX_MESSAGE_LENGTH - 1] + [ELLIPSIS] else text
  }

  function Chunks(text: string): (chunks: seq<string>)
    ensures chunks != []
  {
    if |text| <= MAX_MESSAGE_LENGTH then [text]
    else [text[..MAX_MESSAGE_LENGTH]] + Chunks(text[MAX_MESSAGE_LENGTH..])
  }

  function Concat(chunks: seq<string>): string {
    if chunks == [] then "" else chunks[0] + Concat(chunks[1..])
  }

  /** Chunks fit into a message, all but the last are full, and together they are the text. */
  lemma {:induction false} ChunksRejoin(text: string)
    ensures Concat(Chunks(text)) == text
    ensures forall i :: 0 <= i < |Chunks(text)| ==> |Chunks(text)[i]| <= 4096
    ensures forall i :: 0 <= i < |Chunks(text)| - 1 ==> |Chunks(text)[i]| == 4096
    ensures text != "" ==> forall i :: 0 <= i < |Chunks(text)| ==> Chunks(text)[i] != ""
  {
    if |text| <= MAX_MESSAGE_LENGTH {
      assert Concat([text]) == text + Concat([text][1..]);
    } else {
      var rest := text[MAX_MESSAGE_LENGTH..];
      ChunksRejoin(rest);
      assert Chunks(text)[1..] == Chunks(rest);
      assert text == text[..MAX_MESSAGE_LENGTH] + rest;
      forall i | 1 <= i < |Chunks(text)| ensures Chunks(text)[i] == Chunks(rest)[i - 1] {}
    }
  }

  /** `_split_message` as its comprehension computes it. */
  method SplitMessage(text: string) returns (chunks: seq<string>)
    ensures chunks == Chunks(text)
  {
    chunks := [];
    var i := 0;
    assert text[0..] == text;
    while i < |text|
      invariant 0 <= i && (i < |text| ==> chunks + Chunks(text[i..]) == Chunks(text))
      invariant i >= |text| && i > 0 ==> chunks == Chunks(text)
      invariant i == 0 ==> chunks == []
      decreases |text| - i
    {
      var end := if i + MAX_MESSAGE_LENGTH < |text| then i + MAX_MESSAGE_LENGTH else |text|;
      ghost var rest := text[i..];
      assert rest[..end - i] == text[i..end];
      if end < |text| { assert rest[MAX_MESSAGE_LENGTH..] == text[end..]; }
      else { assert text[i..end] == rest; }
      chunks := chunks + [text[i..end]];
      i := i + MAX_MESSAGE_LENGTH;
    }
    if chunks == [] { chunks := [text]; }
  }

  /******* The platform *******/

  datatype EditResult = Edited | NotModified | RateLimited | EditFailed

  datatype Call =
    | Send(text: string, sent: Option<MessageId>)
    | Edit(id: MessageId, edited: string, result: EditResult, shown: bool)  // does the message show the text now?

  class Bot {
    var shows: map<MessageId, string>  // messages that are not deleted, with their current text
    var nextId: MessageId
    ghost var calls: seq<Call>  // every call with its outcome
    ghost var deleted: set<MessageId>

    ghost predicate Valid()
      reads this
    {
      && (forall id: MessageId :: id in shows <==> id < nextId && id !in deleted)
      && (forall id :: id in deleted ==> id < nextId)
    }

    constructor ()
      ensures Valid() && shows == map[] && calls == []
    {
      shows, nextId, calls, deleted := map[], 0, [], {};
    }

    /** A failed send may still have put the message into the chat. */
    method SendMessage(text: string) returns (sent: Option<MessageId>)
      requires Valid()
      modifies this`shows, this`nextId, this`calls
      ensures Valid() && calls == old(calls) + [Send(text, sent)]
      ensures
        || (shows == old(shows) && nextId == old(nextId) && sent.None?)
        || (&& shows == old(shows)[old(nextId) := text] && nextId == old(nextId) + 1
            && (sent.None? || sent == Some(old(nextId))))
    {
      var delivered, acknowledged := *, *;
      sent := None;
      if delivered {
        if acknowledged { sent := Some(nextId); }
        shows, nextId := shows[nextId := text], nextId + 1;
      }
      calls := calls + [Send(text, sent)];
    }

    /** "Not modified" is only said of a message with that very text; a failed edit may still have been applied. */
    method EditMessageText(id: MessageId, text: string) returns (result: EditResult)
      requires Valid()
      modifies this`shows, this`calls
      ensures Valid() && calls == old(calls) + [Edit(id, text, result, Shows(shows, id, text))]
      ensures result == Edited ==> id in old(shows) && shows == old(shows)[id := text]
      ensures result == NotModified ==> id in old(shows) && old(shows)[id] == text && shows == old(shows)
      ensures result == RateLimited ==> shows == old(shows)
      ensures result == EditFailed ==> shows == old(shows) || (id in old(shows) && shows == old(shows)[id := text])
    {
      var answer, applied := *, *;
      result := answer;
      if id !in shows {
        if result == Edited || result == NotModified { result := EditFailed; }
      } else if result == NotModified {
        if shows[id] != text { result := EditFailed; }
      } else if result == Edited || (result == EditFailed && applied) {
        shows := shows[id := text];
      }
      calls := calls + [Edit(id, text, result, Shows(shows, id, text))];
    }

    /** Somebody deletes a message in the chat. */
    method Delete(id: MessageId)
      requires Valid()
      modifies this`shows, this`deleted
      ensures Valid() && shows == old(shows) - {id}
    {
      if id in shows { deleted := deleted + {id}; }
      shows := shows - {id};
    }
  }

  /******* Tracked messages *******/

  datatype Stream = Stream(messageId: MessageId, lastEditAt: real, lastText: string)

  predicate Distinct(order: seq<string>) {
    forall i, j :: 0 <= i < j < |order| ==> order[i] != order[j]
  }

  /** Insertion order after a key is popped. */
  function Without(order: seq<string>, key: string): (r: seq<string>)
    ensures forall k :: k in r <==> k in order && k != key
    ensures if key in order then |r| < |order| else r == order
    ensures Distinct(order) && order != [] && key == order[0] ==> r == order[1..]
  {
    if order == [] then [] else (if order[0] == key then [] else [order[0]]) + Without(order[1..], key)
  }

  lemma {:induction false} WithoutDistinct(order: seq<string>, key: string)
    requires Distinct(order)
    ensures Distinct(Without(order, key))
  {
    if order != [] {
      var rest := Without(order[1..], key);
      forall i, j | 0 <= i < j < |order[1..]| ensures order[1..][i] != order[1..][j] {
        assert order[i + 1] != order[j + 1];
      }
      WithoutDistinct(order[1..], key);
      forall i | 0 <= i < |rest| ensures rest[i] != order[0] {
        assert rest[i] in order[1..];
      }
      ConsDistinct(order[0], rest);
      if order[0] == key { assert Without(order, key) == rest; }
    }
  }

  lemma ConsDistinct(key: string, rest: seq<string>)
    requires Distinct(rest) && forall i :: 0 <= i < |rest| ==> rest[i] != key
    ensures Distinct([key] + rest)
  {
    var all := [key] + rest;
    forall i, j | 0 <= i < j < |all| ensures all[i] != all[j] {
      assert all[j] == rest[j - 1];
      if i > 0 { assert all[i] == rest[i - 1]; }
    }
  }

  ghost predicate Tracking(streams: map<string, Stream>, order: seq<string>, nextId: MessageId) {
    && Distinct(order)
    && (forall key :: key in order <==> key in streams)
    && |order| <= MAX_TRACKED
    && (forall key :: key in streams ==> streams[key].messageId < nextId)
    && (forall a, b :: a in streams && b in streams && streams[a].messageId == streams[b].messageId ==> a == b)
  }

  predicate Unused(streams: map<string, Stream>, id: MessageId) {
    forall key :: key in streams ==> streams[key].messageId != id
  }

  /** The keys whose tracked message is in the chat but does not show what the channel believes it shows. */
  function Stray(streams: map<string, Stream>, shows: map<MessageId, string>): set<string> {
    set key | key in streams && streams[key].messageId in shows
              && shows[streams[key].messageId] != streams[key].lastText
  }

  lemma TrackingGrows(streams: map<string, Stream>, order: seq<string>, nextId: MessageId, later: MessageId)
    requires Tracking(streams, order, nextId) && nextId <= later
    ensures Tracking(streams, order, later)
    ensures forall id :: nextId <= id ==> Unused(streams, id)
  {}

  lemma TrackingAdds(streams: map<string, Stream>, order: seq<string>, nextId: MessageId, key: string, s: Stream)
    requires Tracking(streams, order, nextId) && key !in streams && |order| < MAX_TRACKED
    requires s.messageId < nextId && Unused(streams, s.messageId)
    ensures Tracking(streams[key := s], order + [key], nextId)
  {}

  lemma TrackingRetargets(streams: map<string, Stream>, order: seq<string>, nextId: MessageId, key: string, s: Stream)
    requires Tracking(streams, order, nextId) && key in streams
    requires s.messageId == streams[key].messageId || (s.messageId < nextId && Unused(streams, s.messageId))
    ensures Tracking(streams[key := s], order, nextId)
    ensures Unused(streams - {key}, streams[key].messageId)
  {}

  lemma StrayTracked(streams: map<string, Stream>, shows: map<MessageId, string>)
    ensures Stray(streams, shows) <= streams.Keys
  {}

  lemma StraySplit(streams: map<string, Stream>, shows: map<MessageId, string>, key: string, s: Stream)
    ensures Stray(streams[key := s], shows) ==
      Stray(streams, shows) - {key} + (if s.messageId in shows && shows[s.messageId] != s.lastText then {key} else {})
  {}

  lemma StrayElsewhere(streams: map<string, Stream>, shows: map<MessageId, string>, id: MessageId, text: string)
    requires Unused(streams, id)
    ensures Stray(streams, shows[id := text]) == Stray(streams, shows)
  {}

  lemma StrayOthers(streams: map<string, Stream>, shows: map<MessageId, string>, key: string, text: string)
    requires key in streams && Unused(streams - {key}, streams[key].messageId)
    ensures Stray(streams, shows[streams[key].messageId := text]) ==
      Stray(streams, shows) - {key} + (if text != streams[key].lastText then {key} else {})
  {
    var id, after := streams[key].messageId, shows[streams[key].messageId := text];
    forall k | k in streams && k != key ensures k in Stray(streams, after) <==> k in Stray(streams, shows) {
      assert k in streams - {key} && streams[k].messageId != id;
    }
  }

  /** Every message of the list is in the chat and shows the chunk at its place; ids grow, so they appear in order. */
  predicate Delivered(shows: map<MessageId, string>, ids: seq<MessageId>, chunks: seq<string>) {
    && |ids| == |chunks|
    && (forall i :: 0 <= i < |ids| ==> ids[i] in shows && shows[ids[i]] == chunks[i])
    && (forall i, j :: 0 <= i < j < |ids| ==> ids[i] < ids[j])
  }

  predicate Shows(shows: map<MessageId, string>, id: MessageId, text: string) {
    id in shows && shows[id] == text
  }

  /** Of the messages so far, none has come back or gone. */
  predicate Undeleted(before: map<MessageId, string>, after: map<MessageId, string>, nextId: MessageId) {
    forall id :: 0 <= id < nextId ==> (id in before <==> id in after)
  }

  /** Old messages are untouched, and new ones come after them. */
  predicate Kept(before: map<MessageId, string>, after: map<MessageId, string>, nextId: MessageId) {
    && (forall id :: id in before ==> id in after && after[id] == before[id])
    && (forall id :: id in after && id !in before ==> nextId <= id)
  }

  /** The same for all but the first message. */
  predicate DeliveredButFirst(shows: map<MessageId, string>, ids: seq<MessageId>, chunks: seq<string>) {
    && 1 <= |ids| == |chunks|
    && (forall i :: 1 <= i < |ids| ==> ids[i] in shows && shows[ids[i]] == chunks[i])
    && (forall i, j :: 0 <= i < j < |ids| ==> ids[i] < ids[j])
  }

  lemma DeliveredFirst(shows: map<MessageId, string>, id: MessageId, chunks: seq<string>)
    requires chunks != []
    ensures DeliveredButFirst(shows, [id], chunks[..1])
  {}

  lemma DeliversNext(before: map<MessageId, string>, after: map<MessageId, string>, nextId: MessageId,
                     ids: seq<MessageId>, chunks: seq<string>, id: MessageId, chunk: string)
    requires DeliveredButFirst(before, ids, chunks) && Kept(before, after, nextId)
    requires ids[|ids| - 1] < nextId <= id && Shows(after, id, chunk)
    ensures DeliveredButFirst(after, ids + [id], chunks + [chunk])
    ensures Shows(after, ids[0], chunks[0]) <==> Shows(before, ids[0], chunks[0])
  {
    assert forall i :: 0 <= i < |ids| ==> ids[i] <= ids[|ids| - 1];
  }

  lemma DeliveredIffFirst(shows: map<MessageId, string>, ids: seq<MessageId>, chunks: seq<string>)
    requires DeliveredButFirst(shows, ids, chunks)
    ensures Delivered(shows, ids, chunks) <==> Shows(shows, ids[0], chunks[0])
  {}

  /** What `Delivered` means for the reader: the messages read one after the other are the text. */
  lemma DeliveredReadsAsText(shows: map<MessageId, string>, ids: seq<MessageId>, text: string)
    requires Delivered(shows, ids, Chunks(text))
    ensures Concat(seq(|ids|, i requires 0 <= i < |ids| => shows[ids[i]])) == text
    ensures forall i :: 0 <= i < |ids| ==> |shows[ids[i]]| <= 4096
  {
    ChunksRejoin(text);
    assert seq(|ids|, i requires 0 <= i < |ids| => shows[ids[i]]) == Chunks(text);
  }

  /******* What a run of calls amounts to *******/

  predicate Throttled(state: Stream, chatId: int, now: real, display: string) {
    || now - state.lastEditAt < (if chatId < 0 then GROUP_EDIT_INTERVAL else EDIT_INTERVAL)
    || display == state.lastText
  }

  /** The calls an update makes: none, one send, or one edit that falls back on a send only if it failed outright. */
  predicate UpdateCalls(state: Option<Stream>, chatId: int, now: real, display: string, calls: seq<Call>) {
    match state
    case None => |calls| == 1 && calls[0].Send? && calls[0].text == display
    case Some(s) =>
      if Throttled(s, chatId, now, display) then calls == []
      else
        && |calls| >= 1 && calls[0].Edit? && calls[0].id == s.messageId && calls[0].edited == display
        && (if calls[0].result == EditFailed
            then |calls| == 2 && calls[1].Send? && calls[1].text == display
            else |calls| == 1)
  }

  /** What is tracked afterwards, from the last outcome. */
  function TrackedAfter(state: Option<Stream>, later: real, display: string, calls: seq<Call>): Option<Stream> {
    if calls == [] then state
    else match calls[|calls| - 1]
         case Send(_, Some(id)) => Some(Stream(id, later, display))
         case Edit(id, _, Edited, _) => Some(Stream(id, later, display))
         case Edit(_, _, NotModified, _) => if state.Some? then Some(state.value.(lastText := display)) else None
         case _ => state
  }

  /** The last call was acknowledged, so what is tracked is what the platform shows. */
  predicate Settled(calls: seq<Call>) {
    && calls != []
    && match calls[|calls| - 1]
       case Send(_, sent) => sent.Some?
       case Edit(_, _, result, _) => result == Edited || result == NotModified
  }

  /** An edit reported as failed was applied after all, and the message sent in its place was not acknowledged. */
  predicate SilentlyEdited(calls: seq<Call>) {
    && |calls| == 2
    && calls[0].Edit? && calls[0].result == EditFailed && calls[0].shown
    && calls[1].Send? && calls[1].sent.None?
  }

  /** Which keys are out of sync after these calls for one of them. */
  function StraysAfter(strays: set<string>, key: string, calls: seq<Call>): set<string> {
    if Settled(calls) then strays - {key} else if SilentlyEdited(calls) then strays + {key} else strays
  }

  /** The retry policy: equal sends until one is acknowledged or the third fails. */
  predicate Retried(calls: seq<Call>, text: string, sent: Option<MessageId>) {
    && 1 <= |calls| <= 3
    && (forall i :: 0 <= i < |calls| ==> calls[i].Send? && calls[i].text == text)
    && (forall i :: 0 <= i < |calls| - 1 ==> calls[i].sent.None?)
    && calls[|calls| - 1].sent == sent
    && (sent.None? ==> |calls| == 3)
  }

  /** The last sends were refused as often as the retry policy allows. */
  predicate GaveUp(calls: seq<Call>) {
    && |calls| >= 3
    && forall i :: |calls| - 3 <= i < |calls| ==> calls[i].Send? && calls[i].sent.None?
  }

  /** The messages acknowledged by the platform, oldest first. */
  function Acknowledged(calls: seq<Call>): seq<MessageId> {
    if calls == [] then []
    else
      var last := calls[|calls| - 1];
      Acknowledged(calls[..|calls| - 1]) + (if last.Send? && last.sent.Some? then [last.sent.value] else [])
  }

  lemma {:induction false} AcknowledgedPlus(a: seq<Call>, b: seq<Call>)
    ensures Acknowledged(a + b) == Acknowledged(a) + Acknowledged(b)
  {
    if b == [] {
      assert a + b == a;
    } else {
      AcknowledgedPlus(a, b[..|b| - 1]);
      assert (a + b)[..|a + b| - 1] == a + b[..|b| - 1];
    }
  }

  lemma {:induction false} NothingAcknowledged(calls: seq<Call>)
    requires forall i :: 0 <= i < |calls| ==> calls[i].Edit? || calls[i].sent.None?
    ensures Acknowledged(calls) == []
  {
    if calls != [] {
      NothingAcknowledged(calls[..|calls| - 1]);
    }
  }

  lemma GaveUpLater(before: seq<Call>, calls: seq<Call>)
    requires GaveUp(calls)
    ensures GaveUp(before + calls)
  {}

  /** A retried send leaves at most one acknowledged message, whatever the number of attempts. */
  lemma RetriedAcknowledges(calls: seq<Call>, text: string, sent: Option<MessageId>)
    requires Retried(calls, text, sent)
    ensures Acknowledged(calls) == if sent.Some? then [sent.value] else []
    ensures sent.None? ==> forall before: seq<Call> :: GaveUp(before + calls)
  {
    NothingAcknowledged(calls[..|calls| - 1]);
  }

  /******* The channel *******/

  class TelegramChannel {
    const bot: Bot
    var streams: map<string, Stream>
    var order: seq<string>  // keys of `streams` in insertion order
    var lastBotMessage: map<string, MessageId>

    ghost predicate Valid()
      reads this, bot
    {
      bot.Valid() && Tracking(streams, order, bot.nextId)
    }

    ghost function OutOfSync(): set<string>
      reads this, bot
    {
      Stray(streams, bot.shows)
    }

    ghost predicate InSync()
      reads this, bot
    {
      OutOfSync() == {}
    }

    function Tracked(key: string): Option<Stream>
      reads this
    {
      if key in streams then Some(streams[key]) else None
    }

    constructor (b: Bot)
      requires b.Valid()
      ensures Valid() && InSync() && bot == b && streams == map[]
    {
      bot, streams, order, lastBotMessage := b, map[], [], map[];
    }

    method Forget(key: string)
      requires Valid()
      modifies this`streams, this`order
      ensures Valid() && streams == old(streams) - {key} && order == Without(old(order), key)
      ensures old(order) != [] && key == old(order)[0] ==> order == old(order)[1..]
      ensures OutOfSync() == old(OutOfSync()) - {key}
    {
      WithoutDistinct(order, key);
      streams, order := streams - {key}, Without(order, key);
    }

    /** Track a message as the newest, making room by forgetting the oldest. */
    method RegisterStreamMessage(key: string, id: MessageId, lastText: string, now: real)
      requires Valid() && id < bot.nextId && Unused(streams, id)
      modifies this`streams, this`order
      ensures Valid() && key in streams && streams[key] == Stream(id, now, lastText)
      ensures forall k :: k in streams && k != key ==> k in old(streams) && streams[k] == old(streams)[k]
      ensures
        var others := Without(old(order), key);
        order == others[if |others| < 256 then 0 else |others| - 255..] + [key]
      ensures Shows(bot.shows, id, lastText) ==> OutOfSync() == (old(OutOfSync()) - {key}) * streams.Keys
    {
      hide Tracking, Stray, Without;
      StrayTracked(streams, bot.shows);
      Forget(key);
      ghost var others := order;
      ghost var n := 0;
      while |order| >= MAX_TRACKED
        invariant Valid() && key !in streams && Unused(streams, id)
        invariant OutOfSync() == old(OutOfSync()) * streams.Keys
        invariant forall k :: k in streams ==> k in old(streams) && streams[k] == old(streams)[k]
        invariant 0 <= n <= |others| && order == others[n..] && (n > 0 ==> |order| >= MAX_TRACKED - 1)
        decreases |order|
      {
        Forget(order[0]);
        n := n + 1;
      }
      TrackingAdds(streams, order, bot.nextId, key, Stream(id, now, lastText));
      StraySplit(streams, bot.shows, key, Stream(id, now, lastText));
      streams := streams[key := Stream(id, now, lastText)];
      order := order + [key];
    }

    /** The "Working on it..." reply is edited later; its zero timestamp lets the first edit through. */
    method SendRunningReply(key: string)
      requires Valid()
      modifies this`streams, this`order, bot`shows, bot`nextId, bot`calls
      ensures Valid() && OutOfSync() <= old(OutOfSync())
      ensures old(bot.nextId) <= bot.nextId
      ensures |bot.calls| == |old(bot.calls)| + 1 && bot.calls[..|old(bot.calls)|] == old(bot.calls)
      ensures var call := bot.calls[|old(bot.calls)|];
        && call.Send? && call.text == "Working on it..."
        && Tracked(key) == TrackedAfter(old(Tracked(key)), 0.0, "Working on it...", [call])
        && OutOfSync() == StraysAfter(old(OutOfSync()), key, [call]) * streams.Keys
      ensures forall k :: k in streams && k != key ==> k in old(streams) && streams[k] == old(streams)[k]
    {
      hide Tracking, Stray;
      StrayTracked(streams, bot.shows);
      var sent := bot.SendMessage("Working on it...");
      TrackingGrows(streams, order, old(bot.nextId), bot.nextId);
      StrayElsewhere(streams, old(bot.shows), old(bot.nextId), "Working on it...");
      if sent.Some? {
        RegisterStreamMessage(key, sent.value, "Working on it...", 0.0);
      }
    }

    /**
     A streamed update. `now` and `later` are the two readings of the clock. The channel loses sync with the
     chat if and only if an edit reported as failed was applied and the message sent in its place was not
     acknowledged; an acknowledged call brings the key back into sync.
     */
    method SendStreamUpdate(chatId: int, key: string, text: string, now: real, later: real)
      returns (ghost calls: seq<Call>)
      requires Valid()
      modifies this`streams, this`order, bot`shows, bot`nextId, bot`calls
      ensures Valid()
      ensures OutOfSync() == StraysAfter(old(OutOfSync()), key, calls) * streams.Keys
      ensures old(bot.nextId) <= bot.nextId
      ensures old(InSync()) ==>
        (InSync() <==> !(|calls| == 2 && calls[1].Send? && calls[1].sent.None? && key in old(streams)
                         && Shows(bot.shows, old(streams)[key].messageId, Display(text))))
      ensures bot.calls == old(bot.calls) + calls
      ensures if text == "" then calls == [] else UpdateCalls(old(Tracked(key)), chatId, now, Display(text), calls)
      ensures text != "" && key in old(streams) ==>
        (calls == [] <==> now - old(streams)[key].lastEditAt < (if chatId < 0 then 3.0 else 1.0)
                          || Display(text) == old(streams)[key].lastText)
      ensures Tracked(key) == TrackedAfter(old(Tracked(key)), later, Display(text), calls)
      ensures forall k :: k in streams && k != key ==> k in old(streams) && streams[k] == old(streams)[k]
      ensures key in old(streams) ==> streams.Keys == old(streams).Keys
    {
      hide Tracking, Stray;
      StrayTracked(streams, bot.shows);
      calls := [];
      if text == "" { return; }
      var display := Display(text);
      if key !in streams {
        calls := StartStream(key, display, later);
        return;
      }
      if Throttled(streams[key], chatId, now, display) { return; }
      calls := EditStream(key, display, later);
    }

    /** No message is tracked yet: send one. */
    method StartStream(key: string, display: string, later: real) returns (ghost calls: seq<Call>)
      requires Valid() && key !in streams
      modifies this`streams, this`order, bot`shows, bot`nextId, bot`calls
      ensures Valid() && OutOfSync() == old(OutOfSync()) * streams.Keys
      ensures old(bot.nextId) <= bot.nextId
      ensures bot.calls == old(bot.calls) + calls && |calls| == 1 && calls[0].Send? && calls[0].text == display
      ensures Tracked(key) == TrackedAfter(None, later, display, calls)
      ensures forall k :: k in streams && k != key ==> k in old(streams) && streams[k] == old(streams)[k]
    {
      hide Tracking, Stray;
      StrayTracked(streams, bot.shows);
      var sent := bot.SendMessage(display);
      calls := [Send(display, sent)];
      TrackingGrows(streams, order, old(bot.nextId), bot.nextId);
      StrayElsewhere(streams, old(bot.shows), old(bot.nextId), display);
      if sent.Some? {
        RegisterStreamMessage(key, sent.value, display, later);
      }
    }

    /** Edit the tracked message, or replace it when the edit fails. */
    method EditStream(key: string, display: string, later: real) returns (ghost calls: seq<Call>)
      requires Valid() && key in streams && streams[key].lastText != display
      modifies this`streams, bot`shows, bot`nextId, bot`calls
      ensures Valid() && OutOfSync() == StraysAfter(old(OutOfSync()), key, calls)
      ensures old(bot.nextId) <= bot.nextId
      ensures old(InSync()) ==>
        (InSync() <==> !(|calls| == 2 && calls[1].Send? && calls[1].sent.None?
                         && Shows(bot.shows, old(streams)[key].messageId, display)))
      ensures bot.calls == old(bot.calls) + calls
      ensures
        && |calls| >= 1 && calls[0].Edit? && calls[0].id == old(streams)[key].messageId && calls[0].edited == display
        && (if calls[0].result == EditFailed
            then |calls| == 2 && calls[1].Send? && calls[1].text == display
            else |calls| == 1)
      ensures Tracked(key) == TrackedAfter(old(Tracked(key)), later, display, calls)
      ensures streams.Keys == old(streams).Keys
      ensures forall k :: k in streams && k != key ==> streams[k] == old(streams)[k]
    {
      hide Tracking, Stray;
      var state := streams[key];
      TrackingRetargets(streams, order, bot.nextId, key, state);
      StrayOthers(streams, bot.shows, key, display);
      StraySplit(streams, bot.shows, key, state.(lastText := display));

      var result := bot.EditMessageText(state.messageId, display);
      calls := [Edit(state.messageId, display, result, Shows(bot.shows, state.messageId, display))];
      ghost var between := bot.shows;
      if Shows(between, state.messageId, display) {
        assert between == old(bot.shows)[state.messageId := display];
      }
      if result == NotModified {
        streams := streams[key := state.(lastText := display)];
        TrackingRetargets(old(streams), order, bot.nextId, key, streams[key]);
        return;
      }
      if result == RateLimited { return; }
      var id := state.messageId;
      if result == EditFailed {
        var sent := bot.SendMessage(display);
        calls := calls + [Send(display, sent)];
        TrackingGrows(streams, order, old(bot.nextId), bot.nextId);
        StrayElsewhere(streams, between, old(bot.nextId), display);
        if sent.None? { return; }
        id := sent.value;
      }
      streams := streams[key := Stream(id, later, display)];
      TrackingRetargets(old(streams), order, bot.nextId, key, streams[key]);
      StraySplit(old(streams), bot.shows, key, streams[key]);
    }

    /** Edit with one retry when rate-limited. */
    method EditFinalChunk(id: MessageId, text: string) returns (ok: bool, ghost calls: seq<Call>)
      requires bot.Valid()
      modifies bot`shows, bot`calls
      ensures bot.Valid() && bot.calls == old(bot.calls) + calls
      ensures 1 <= |calls| <= 2
      ensures forall i :: 0 <= i < |calls| ==> calls[i].Edit? && calls[i].id == id && calls[i].edited == text
      ensures |calls| == 2 <==> calls[0].result == RateLimited
      ensures ok <==> calls[|calls| - 1].result in {Edited, NotModified}
      ensures ok ==> id in old(bot.shows) && bot.shows == old(bot.shows)[id := text]
      ensures bot.shows == old(bot.shows) || (id in old(bot.shows) && bot.shows == old(bot.shows)[id := text])
    {
      ok, calls := false, [];
      var attempt := 0;
      while attempt < 2
        invariant 0 <= attempt && bot.Valid() && bot.shows == old(bot.shows)
        invariant bot.calls == old(bot.calls) + calls && |calls| == attempt
        invariant attempt == 1 ==>
          calls[0].Edit? && calls[0].id == id && calls[0].edited == text && calls[0].result == RateLimited
        invariant attempt < 2
      {
        var result := bot.EditMessageText(id, text);
        calls := calls + [Edit(id, text, result, Shows(bot.shows, id, text))];
        if result == Edited || result == NotModified {
          assert result == NotModified ==> bot.shows[id := text] == bot.shows;
          return true, calls;
        }
        if !(result == RateLimited && attempt == 0) { return false, calls; }
        attempt := attempt + 1;
      }
      assert false;
    }

    /** A fresh message, with the retry policy; `None` when every attempt failed and the call raises. */
    method SendNewMessage(chatKey: string, text: string) returns (sent: Option<MessageId>, ghost calls: seq<Call>)
      requires Valid()
      modifies bot`shows, bot`nextId, bot`calls, this`lastBotMessage
      ensures Valid() && OutOfSync() == old(OutOfSync())
      ensures old(bot.nextId) <= bot.nextId
      ensures bot.calls == old(bot.calls) + calls && Retried(calls, text, sent)
      ensures lastBotMessage == if sent.Some? then old(lastBotMessage)[chatKey := sent.value] else old(lastBotMessage)
      ensures sent.Some? ==> old(bot.nextId) <= sent.value < bot.nextId && Shows(bot.shows, sent.value, text)
      ensures Kept(old(bot.shows), bot.shows, old(bot.nextId))
    {
      hide Tracking, Stray;
      calls, sent := [], None;
      var attempt := 0;
      while attempt < MAX_RETRIES
        invariant 0 <= attempt <= MAX_RETRIES && Valid() && sent.None? && OutOfSync() == old(OutOfSync())
        invariant bot.calls == old(bot.calls) + calls && |calls| == attempt
        invariant forall i :: 0 <= i < |calls| ==> calls[i] == Send(text, None)
        invariant old(bot.nextId) <= bot.nextId && lastBotMessage == old(lastBotMessage)
        invariant Kept(old(bot.shows), bot.shows, old(bot.nextId))
      {
        ghost var before, next := bot.shows, bot.nextId;
        sent := bot.SendMessage(text);
        calls := calls + [Send(text, sent)];
        TrackingGrows(streams, order, next, bot.nextId);
        StrayElsewhere(streams, before, next, text);
        if sent.Some? {
          lastBotMessage := lastBotMessage[chatKey := sent.value];
          return;
        }
        attempt := attempt + 1;
      }
    }

    /**
     The final text: the tracked message takes the first chunk, or a fresh one does if it cannot be edited;
     the other chunks follow. If nothing raises, the whole text is in the chat, in order, in messages that
     fit -- except when the first chunk equals the last text the channel remembers and the tracked message no
     longer shows that. It raises only when the retry policy gives up, and the messages acknowledged on the
     way are those of `ids`, none twice.
     */
    method FinalizeStreamMessage(chatKey: string, state: Stream, text: string)
      returns (raised: bool, ghost ids: seq<MessageId>, ghost calls: seq<Call>)
      requires Valid() && state.messageId < bot.nextId && Unused(streams, state.messageId)
      modifies bot`shows, bot`nextId, bot`calls, this`lastBotMessage
      ensures Valid() && OutOfSync() == old(OutOfSync())
      ensures old(bot.nextId) <= bot.nextId
      ensures bot.calls == old(bot.calls) + calls
      ensures raised ==> GaveUp(calls)
      ensures !raised ==> |ids| == |Chunks(text)| && lastBotMessage == old(lastBotMessage)[chatKey := ids[|ids| - 1]]
      ensures !raised ==> (ids == Acknowledged(calls) || ids == [state.messageId] + Acknowledged(calls))
      ensures !raised ==>
        (Delivered(bot.shows, ids, Chunks(text)) <==>
         Chunks(text)[0] != state.lastText || Shows(old(bot.shows), state.messageId, state.lastText))
      ensures Chunks(text) == [state.lastText] ==> !raised && calls == []
    {
      hide Tracking, Stray, Retried, GaveUp, Acknowledged, Chunks, Unused;
      hide Shows, Delivered, DeliveredButFirst, Bot.Valid, TelegramChannel.Valid, OutOfSync;
      var chunks := SplitMessage(text);
      ghost var id, whole;
      raised, id, whole, calls := FinalizeFirst(chatKey, state, chunks[0]);
      ids := [id];
      if raised { return; }
      ghost var more;
      raised, ids, more := FinalizeRest(chatKey, chunks, id);
      AcknowledgedPlus(calls, more);
      if raised { GaveUpLater(calls, more); }
      if !raised { DeliveredIffFirst(bot.shows, ids, chunks); }
      calls := calls + more;
    }

    /** The chunks after the first, which is in message `first`. */
    method FinalizeRest(chatKey: string, chunks: seq<string>, ghost first: MessageId)
      returns (raised: bool, ghost ids: seq<MessageId>, ghost calls: seq<Call>)
      requires Valid() && chunks != [] && first < bot.nextId
      modifies bot`shows, bot`nextId, bot`calls, this`lastBotMessage
      ensures Valid() && OutOfSync() == old(OutOfSync())
      ensures old(bot.nextId) <= bot.nextId
      ensures bot.calls == old(bot.calls) + calls
      ensures raised ==> GaveUp(calls)
      ensures |chunks| == 1 ==> !raised && calls == [] && lastBotMessage == old(lastBotMessage)
      ensures !raised ==>
        && |ids| == |chunks| && ids == [first] + Acknowledged(calls) && DeliveredButFirst(bot.shows, ids, chunks)
        && (|chunks| > 1 ==> lastBotMessage == old(lastBotMessage)[chatKey := ids[|ids| - 1]])
        && (Shows(bot.shows, first, chunks[0]) <==> Shows(old(bot.shows), first, chunks[0]))
    {
      hide Tracking, Stray, Retried, GaveUp, Acknowledged, Kept;
      hide Shows, DeliveredButFirst, Bot.Valid, TelegramChannel.Valid, OutOfSync;
      raised, ids, calls := false, [first], [];
      DeliveredFirst(bot.shows, first, chunks);
      NothingAcknowledged([]);
      var i := 1;
      while i < |chunks|
        invariant 1 <= i <= |chunks| && Valid() && OutOfSync() == old(OutOfSync())
        invariant old(bot.nextId) <= bot.nextId
        invariant bot.calls == old(bot.calls) + calls && (i == 1 ==> calls == [])
        invariant |ids| == i && ids == [first] + Acknowledged(calls) && ids[i - 1] < bot.nextId
        invariant lastBotMessage == if i == 1 then old(lastBotMessage) else old(lastBotMessage)[chatKey := ids[i - 1]]
        invariant DeliveredButFirst(bot.shows, ids, chunks[..i])
        invariant Shows(bot.shows, first, chunks[0]) <==> Shows(old(bot.shows), first, chunks[0])
      {
        ghost var more;
        ghost var before, next := bot.shows, bot.nextId;
        var sent;
        sent, more := SendNewMessage(chatKey, chunks[i]);
        RetriedAcknowledges(more, chunks[i], sent);
        AcknowledgedPlus(calls, more);
        calls := calls + more;
        if sent.None? { raised := true; return; }
        DeliversNext(before, bot.shows, next, ids, chunks[..i], sent.value, chunks[i]);
        assert chunks[..i] + [chunks[i]] == chunks[..i + 1];
        ids := ids + [sent.value];
        i := i + 1;
      }
      assert chunks[..i] == chunks;
    }

    /** The first chunk: `whole` says that the message which carries it shows it. */
    method FinalizeFirst(chatKey: string, state: Stream, chunk: string)
      returns (raised: bool, ghost id: MessageId, ghost whole: bool, ghost calls: seq<Call>)
      requires Valid() && state.messageId < bot.nextId && Unused(streams, state.messageId)
      modifies bot`shows, bot`nextId, bot`calls, this`lastBotMessage
      ensures Valid() && OutOfSync() == old(OutOfSync())
      ensures old(bot.nextId) <= bot.nextId
      ensures bot.calls == old(bot.calls) + calls
      ensures raised ==> GaveUp(calls)
      ensures !raised ==>
        && id < bot.nextId && lastBotMessage == old(lastBotMessage)[chatKey := id]
        && ([id] == Acknowledged(calls) || [id] == [state.messageId] + Acknowledged(calls))
        && (whole <==> Shows(bot.shows, id, chunk))
        && (whole <==> chunk != state.lastText || Shows(old(bot.shows), state.messageId, state.lastText))
      ensures chunk == state.lastText ==> !raised && calls == [] && id == state.messageId
    {
      hide Tracking, Stray, Retried, GaveUp, Acknowledged, Kept;
      var edited := true;
      raised, id, calls := false, state.messageId, [];
      if chunk != state.lastText {
        StrayElsewhere(streams, bot.shows, state.messageId, chunk);
        edited, calls := EditFinalChunk(state.messageId, chunk);
      }
      NothingAcknowledged(calls);
      whole := Shows(bot.shows, id, chunk);
      if edited {
        lastBotMessage := lastBotMessage[chatKey := state.messageId];
      } else {
        ghost var more;
        var sent;
        sent, more := SendNewMessage(chatKey, chunk);
        RetriedAcknowledges(more, chunk, sent);
        AcknowledgedPlus(calls, more);
        calls := calls + more;
        raised, whole := sent.None?, true;
        if sent.Some? { id := sent.value; }
      }
    }

    /** A final message: finalise the tracked one, or send the text as a single message if there is none. */
    method SendFinal(key: string, chatKey: string, text: string)
      returns (raised: bool, ghost ids: seq<MessageId>, ghost calls: seq<Call>)
      requires Valid()
      modifies this, bot`shows, bot`nextId, bot`calls
      ensures Valid() && OutOfSync() == old(OutOfSync()) - {key} && streams == old(streams) - {key}
      ensures old(bot.nextId) <= bot.nextId
      ensures bot.calls == old(bot.calls) + calls
      ensures raised ==> GaveUp(calls)
      ensures !raised && key in old(streams) ==>
        (Delivered(bot.shows, ids, Chunks(text)) <==>
         Chunks(text)[0] != old(streams)[key].lastText
         || Shows(old(bot.shows), old(streams)[key].messageId, old(streams)[key].lastText))
      ensures !raised && key in old(streams) ==>
        (ids == Acknowledged(calls) || ids == [old(streams)[key].messageId] + Acknowledged(calls))
      ensures !raised && key !in old(streams) ==> Delivered(bot.shows, ids, [text]) && ids == Acknowledged(calls)
      ensures key in old(streams) && Chunks(text) == [old(streams)[key].lastText] ==> !raised && calls == []
    {
      hide Retried, GaveUp, Acknowledged, Chunks;
      if key in streams {
        var state := streams[key];
        TrackingRetargets(streams, order, bot.nextId, key, state);
        Forget(key);
        raised, ids, calls := FinalizeStreamMessage(chatKey, state, text);
      } else {
        var sent;
        StrayTracked(streams, bot.shows);
        sent, calls := SendNewMessage(chatKey, text);
        RetriedAcknowledges(calls, text, sent);
        assert [] + calls == calls;
        raised := sent.None?;
        ids := if sent.Some? then [sent.value] else [];
      }
    }

    ghost function Present(): set<string>
      reads this, bot
    {
      InChat(streams, bot.shows)
    }

    /**
     Any sequence of replies, updates, finals and deletions by others. What is out of sync at the end is what
     the calls say: the keys with a silently applied edit that no acknowledged call has made good since, as far
     as their messages are still tracked and in the chat.
     */
    method Serve(events: seq<ChatEvent>) returns (ghost rounds: seq<Round>)
      requires Valid() && InSync()
      modifies this, bot
      ensures Valid()
      ensures |rounds| == |events| && forall i :: 0 <= i < |rounds| ==> rounds[i].event == events[i]
      ensures bot.calls == old(bot.calls) + AllCalls(rounds)
      ensures OutOfSync() == StraysOf(rounds) * Present()
      ensures Paced(old(streams), rounds)
    {
      hide Tracking, Stray, InChat, Chunks, Delivered, Acknowledged, GaveUp, UpdateCalls, TrackedAfter;
      hide PacedAt, Follows;
      FollowsStart(streams);
      rounds := [];
      var i := 0;
      while i < |events|
        invariant 0 <= i == |rounds| <= |events| && Valid()
        invariant forall k :: 0 <= k < i ==> rounds[k].event == events[k]
        invariant bot.calls == old(bot.calls) + AllCalls(rounds)
        invariant OutOfSync() == StraysOf(rounds) * Present()
        invariant Follows(old(streams), rounds, streams) && Paced(old(streams), rounds)
      {
        ghost var before := streams;
        ghost var calls := ServeOne(events[i], StraysOf(rounds));
        ghost var round := Round(events[i], calls);
        RoundsGrow(rounds, round);
        PacedNext(old(streams), rounds, round, before, streams);
        assert bot.calls == old(bot.calls) + AllCalls(rounds + [round]);
        rounds := rounds + [round];
        i := i + 1;
      }
    }

    method ServeOne(event: ChatEvent, ghost strays: set<string>) returns (ghost calls: seq<Call>)
      requires Valid() && OutOfSync() == strays * Present()
      modifies this, bot
      ensures Valid() && bot.calls == old(bot.calls) + calls
      ensures OutOfSync() == StraysAfterRound(strays, Round(event, calls)) * Present()
      ensures Moved(old(streams), Round(event, calls), streams) && MayCall(old(streams), Round(event, calls))
    {
      hide Tracking, Stray, InChat, Chunks, Delivered, Acknowledged, GaveUp, UpdateCalls;
      ghost var before, shown, queued, next := streams, bot.shows, order, bot.nextId;
      calls := [];
      match event {
        case Replied(key) =>
          SendRunningReply(key);
          calls := bot.calls[|old(bot.calls)|..];
          assert calls == [bot.calls[|old(bot.calls)|]];
          assert Undeleted(shown, bot.shows, next);
          ExactAfter(before, streams, shown, bot.shows, queued, next, key, strays, calls);
        case Updated(chatId, key, text, now, later) =>
          calls := SendStreamUpdate(chatId, key, text, now, later);
          assert Undeleted(shown, bot.shows, next);
          ExactAfter(before, streams, shown, bot.shows, queued, next, key, strays, calls);
        case Finished(key, chatKey, text) =>
          ghost var ids;
          var raised;
          raised, ids, calls := SendFinal(key, chatKey, text);
          assert Undeleted(shown, bot.shows, next);
          ExactFinished(before, shown, bot.shows, queued, next, key, strays);
        case Deleted(id) =>
          ExactDeleted(streams, bot.shows, strays, id);
          bot.Delete(id);
      }
    }
  }

  /******* Whole runs *******/

  datatype ChatEvent =
    | Replied(key: string)
    | Updated(chatId: int, key: string, text: string, now: real, later: real)
    | Finished(key: string, chatKey: string, text: string)
    | Deleted(id: MessageId)

  datatype Round = Round(event: ChatEvent, calls: seq<Call>)

  function AllCalls(rounds: seq<Round>): seq<Call> {
    if rounds == [] then [] else AllCalls(rounds[..|rounds| - 1]) + rounds[|rounds| - 1].calls
  }

  function StraysAfterRound(strays: set<string>, round: Round): set<string> {
    match round.event
    case Replied(key) => StraysAfter(strays, key, round.calls)
    case Updated(_, key, _, _, _) => StraysAfter(strays, key, round.calls)
    case Finished(key, _, _) => strays - {key}
    case Deleted(_) => strays
  }

  /** The keys with a silently applied edit that no acknowledged call or final has made good since. */
  function StraysOf(rounds: seq<Round>): set<string> {
    if rounds == [] then {} else StraysAfterRound(StraysOf(rounds[..|rounds| - 1]), rounds[|rounds| - 1])
  }

  function StateIn(streams: map<string, Stream>, key: string): Option<Stream> {
    if key in streams then Some(streams[key]) else None
  }

  /** What is tracked for the key after a round, if it is not pushed out. */
  function StateAfter(state: Option<Stream>, round: Round, key: string): Option<Stream> {
    match round.event
    case Replied(k) => if k == key then TrackedAfter(state, 0.0, "Working on it...", round.calls) else state
    case Updated(_, k, text, _, later) =>
      if k == key then TrackedAfter(state, later, Display(text), round.calls) else state
    case Finished(k, _, _) => if k == key then None else state
    case Deleted(_) => state
  }

  function StateOf(start: map<string, Stream>, rounds: seq<Round>, key: string): Option<Stream> {
    if rounds == [] then StateIn(start, key)
    else StateAfter(StateOf(start, rounds[..|rounds| - 1], key), rounds[|rounds| - 1], key)
  }

  predicate Moved(streams: map<string, Stream>, round: Round, streams': map<string, Stream>) {
    forall k :: k in streams' ==> StateAfter(StateIn(streams, k), round, k) == Some(streams'[k])
  }

  predicate MayCall(streams: map<string, Stream>, round: Round) {
    round.event.Updated? ==>
      var e := round.event;
      if e.text == "" then round.calls == []
      else UpdateCalls(StateIn(streams, e.key), e.chatId, e.now, Display(e.text), round.calls)
  }

  /** What is tracked is what the rounds amount to. */
  ghost predicate Follows(start: map<string, Stream>, rounds: seq<Round>, streams: map<string, Stream>) {
    forall k :: k in streams ==> StateOf(start, rounds, k) == Some(streams[k])
  }

  /** An update that edits does so at the message tracked, with a new text, and not too soon. */
  predicate PacedAt(state: Option<Stream>, round: Round) {
    round.event.Updated? && round.calls != [] && round.calls[0].Edit? ==>
      && state.Some? && round.calls[0].id == state.value.messageId && Display(round.event.text) != state.value.lastText
      && round.event.now - state.value.lastEditAt >= (if round.event.chatId < 0 then 3.0 else 1.0)
  }

  ghost predicate Paced(start: map<string, Stream>, rounds: seq<Round>) {
    forall j :: 0 <= j < |rounds| && rounds[j].event.Updated? ==>
      PacedAt(StateOf(start, rounds[..j], rounds[j].event.key), rounds[j])
  }

  lemma FollowsStart(start: map<string, Stream>)
    ensures Follows(start, [], start) && Paced(start, [])
  {
  }

  lemma PacedNext(start: map<string, Stream>, rounds: seq<Round>, round: Round,
                  streams: map<string, Stream>, streams': map<string, Stream>)
    requires Follows(start, rounds, streams) && Paced(start, rounds)
    requires Moved(streams, round, streams') && MayCall(streams, round)
    ensures Follows(start, rounds + [round], streams') && Paced(start, rounds + [round])
  {
    hide UpdateCalls, PacedAt, Display;
    var all := rounds + [round];
    assert all[..|rounds|] == rounds;
    forall k | k in streams' ensures StateOf(start, all, k) == Some(streams'[k]) {
      StateFollows(StateIn(streams, k), StateOf(start, rounds, k), round, k);
    }
    forall j | 0 <= j < |all| && all[j].event.Updated?
      ensures PacedAt(StateOf(start, all[..j], all[j].event.key), all[j])
    {
      if j < |rounds| {
        assert all[..j] == rounds[..j];
      } else {
        PacedNow(streams, StateOf(start, rounds, round.event.key), round);
      }
    }
  }

  lemma StateFollows(state: Option<Stream>, believed: Option<Stream>, round: Round, key: string)
    requires StateAfter(state, round, key).Some? && (state.Some? ==> believed == state)
    ensures state.Some? || StateAfter(believed, round, key) == StateAfter(state, round, key)
  {
  }

  lemma PacedNow(streams: map<string, Stream>, believed: Option<Stream>, round: Round)
    requires round.event.Updated? && MayCall(streams, round)
    requires round.event.key in streams ==> believed == Some(streams[round.event.key])
    ensures PacedAt(believed, round)
  {
  }

  /** An edit or a send of this round was acknowledged, so its later clock reading is kept. */
  predicate Stamps(round: Round, key: string) {
    && round.event.Updated? && round.event.key == key && round.calls != []
    && var last := round.calls[|round.calls| - 1];
       (last.Send? && last.sent.Some?) || (last.Edit? && last.result == Edited)
  }

  predicate Leaves(round: Round, key: string) {
    && !Stamps(round, key)
    && (round.event.Replied? || round.event.Finished? ==> round.event.key != key)
  }

  lemma {:induction false} StampKept(start: map<string, Stream>, rounds: seq<Round>, i: nat, j: nat, key: string)
    requires i < j <= |rounds| && Stamps(rounds[i], key) && forall k :: i < k < j ==> Leaves(rounds[k], key)
    ensures
      var state := StateOf(start, rounds[..j], key);
      state.Some? && state.value.lastEditAt == rounds[i].event.later
    decreases j
  {
    hide Display;
    assert rounds[..j][..j - 1] == rounds[..j - 1];
    if i < j - 1 { StampKept(start, rounds, i, j - 1, key); }
  }

  /**
   Over any sequence of events: after an update that reached the chat, the next edit of that conversation is
   at least a second away from it, in a group three.
   */
  lemma EditsKeepTheirDistance(start: map<string, Stream>, rounds: seq<Round>, i: nat, j: nat)
    requires Paced(start, rounds) && i < j < |rounds| && rounds[i].event.Updated? && rounds[j].event.Updated?
    requires rounds[j].event.key == rounds[i].event.key && Stamps(rounds[i], rounds[i].event.key)
    requires forall k :: i < k < j ==> Leaves(rounds[k], rounds[i].event.key)
    requires rounds[j].calls != [] && rounds[j].calls[0].Edit?
    ensures rounds[j].event.now - rounds[i].event.later >= if rounds[j].event.chatId < 0 then 3.0 else 1.0
  {
    hide StateOf, Stamps, Leaves, Display;
    StampKept(start, rounds, i, j, rounds[i].event.key);
    assert PacedAt(StateOf(start, rounds[..j], rounds[j].event.key), rounds[j]);
  }

  lemma RoundsGrow(rounds: seq<Round>, round: Round)
    ensures AllCalls(rounds + [round]) == AllCalls(rounds) + round.calls
    ensures StraysOf(rounds + [round]) == StraysAfterRound(StraysOf(rounds), round)
  {
    assert (rounds + [round])[..|rounds|] == rounds;
  }

  /** The tracked messages that are in the chat. */
  function InChat(streams: map<string, Stream>, shows: map<MessageId, string>): set<string> {
    set key | key in streams && streams[key].messageId in shows
  }

  /** A reply or an update keeps the account of strays exact. */
  lemma ExactAfter(streams: map<string, Stream>, streams': map<string, Stream>,
                   shows: map<MessageId, string>, shows': map<MessageId, string>,
                   order: seq<string>, nextId: MessageId, key: string, strays: set<string>, calls: seq<Call>)
    requires Tracking(streams, order, nextId) && Undeleted(shows, shows', nextId)
    requires Stray(streams, shows) == strays * InChat(streams, shows)
    requires Stray(streams', shows') == StraysAfter(Stray(streams, shows), key, calls) * streams'.Keys
    requires forall k :: k in streams' && (k != key || !Settled(calls)) ==> k in streams && streams'[k] == streams[k]
    ensures Stray(streams', shows') == StraysAfter(strays, key, calls) * InChat(streams', shows')
  {
    hide Settled, SilentlyEdited;
    StrayTracked(streams', shows');
    forall k | k in streams' && k in streams && streams'[k] == streams[k]
      ensures k in InChat(streams', shows') <==> k in InChat(streams, shows)
    {
      assert streams[k].messageId < nextId;
    }
  }

  lemma ExactFinished(streams: map<string, Stream>, shows: map<MessageId, string>, shows': map<MessageId, string>,
                      order: seq<string>, nextId: MessageId, key: string, strays: set<string>)
    requires Tracking(streams, order, nextId) && Undeleted(shows, shows', nextId)
    requires Stray(streams, shows) == strays * InChat(streams, shows)
    requires Stray(streams - {key}, shows') == Stray(streams, shows) - {key}
    ensures Stray(streams - {key}, shows') == (strays - {key}) * InChat(streams - {key}, shows')
  {
    var rest := streams - {key};
    forall k | k in rest ensures k in InChat(rest, shows') <==> k in InChat(streams, shows) {
      assert streams[k].messageId < nextId;
    }
  }

  lemma ExactDeleted(streams: map<string, Stream>, shows: map<MessageId, string>, strays: set<string>, id: MessageId)
    requires Stray(streams, shows) == strays * InChat(streams, shows)
    ensures Stray(streams, shows - {id}) == strays * InChat(streams, shows - {id})
  {
    var left := shows - {id};
    forall k | k in InChat(streams, left) ensures k in Stray(streams, left) <==> k in Stray(streams, shows) {
      assert left[streams[k].messageId] == shows[streams[k].messageId];
    }
  }

  /**
   The final that is not sent again: the tracked message shows the final text already, somebody deletes it,
   and the final makes no call at all.
   */
  method FinalAfterDeletion(channel: TelegramChannel, key: string, chatKey: string)
    returns (replied: bool, raised: bool, ghost ids: seq<MessageId>, ghost calls: seq<Call>)
    requires channel.Valid() && key !in channel.streams
    modifies channel, channel.bot
    ensures replied ==> !raised && calls == [] && !Delivered(channel.bot.shows, ids, Chunks("Working on it..."))
  {
    channel.SendRunningReply(key);
    replied, raised, ids, calls := key in channel.streams, false, [], [];
    if replied {
      channel.bot.Delete(channel.streams[key].messageId);
      raised, ids, calls := channel.SendFinal(key, chatKey, "Working on it...");
    }
  }
}
