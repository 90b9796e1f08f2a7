/**
 How the Feishu adapter keeps a conversation on its thread: outbound messages remember which platform
 message ids belong to the thread, a clarification waits for a plain answer, and an inbound message is
 routed by either.
 */
module FeishuReplies {
  import opened Options
  import opened Text
  import Store = ChannelStore

  const CHANNEL := "feishu"
  const PENDING_CLARIFICATION_TTL_SECONDS: real := 1800.0

  /** `_non_empty_str`: the stripped text, unless nothing is left. */
  function NonEmpty(value: Option<string>): Option<string> {
    if value.Some? && Strip(value.value) != "" then Some(Strip(value.value)) else None
  }

  /******* Pending clarifications *******/

  datatype PendingKey = PendingKey(chat: string, user: string)

  datatype Pending = Pending(threadId: string, topicId: string, sourceId: string, cardId: string, createdAt: real)

  type Waiting = map<PendingKey, seq<Pending>>

  predicate Live(p: Pending, now: real) {
    now - p.createdAt <= PENDING_CLARIFICATION_TTL_SECONDS
  }

  datatype PendingOp = Remember(key: PendingKey, item: Pending) | Consume(key: PendingKey, now: real)

  function Held(w: Waiting, key: PendingKey): seq<Pending> {
    if key in w then w[key] else []
  }

  /** How many items a consume takes off the front: the expired ones and the first live one. */
  function Taken(items: seq<Pending>, now: real): (n: nat)
    ensures n <= |items|
  {
    if items == [] then 0
    else if Live(items[0], now) then 1
    else 1 + Taken(items[1..], now)
  }

  function Put(w: Waiting, key: PendingKey, items: seq<Pending>): Waiting {
    if items == [] then w - {key} else w[key := items]
  }

  function StepPending(w: Waiting, op: PendingOp): Waiting {
    match op
    case Remember(key, item) => Put(w, key, Held(w, key) + [item])
    case Consume(key, now) => Put(w, key, Held(w, key)[Taken(Held(w, key), now)..])
  }

  /** What a consume hands out: the last item it takes, if that one is live. */
  function Answer(items: seq<Pending>, now: real): Option<Pending> {
    var n := Taken(items, now);
    if n > 0 && Live(items[n - 1], now) then Some(items[n - 1]) else None
  }

  function RunPending(ops: seq<PendingOp>): Waiting {
    if ops == [] then map[] else StepPending(RunPending(ops[..|ops| - 1]), ops[|ops| - 1])
  }

  /** The items remembered under a key, and those taken off again, each in order over the whole run. */
  function Remembered(ops: seq<PendingOp>, key: PendingKey): seq<Pending> {
    if ops == [] then []
    else
      var op := ops[|ops| - 1];
      Remembered(ops[..|ops| - 1], key) + (if op.Remember? && op.key == key then [op.item] else [])
  }

  datatype Removal = Removal(item: Pending, at: real, handedOut: bool)

  function RemovalsOf(items: seq<Pending>, now: real): seq<Removal> {
    var n := Taken(items, now);
    seq(n, i requires 0 <= i < n => Removal(items[i], now, i == n - 1 && Live(items[i], now)))
  }

  function Removals(ops: seq<PendingOp>, key: PendingKey): seq<Removal> {
    if ops == [] then []
    else
      var before, op := ops[..|ops| - 1], ops[|ops| - 1];
      Removals(before, key)
      + (if op.Consume? && op.key == key then RemovalsOf(Held(RunPending(before), key), op.now) else [])
  }

  function Items(removals: seq<Removal>): seq<Pending> {
    seq(|removals|, i requires 0 <= i < |removals| => removals[i].item)
  }

  /** Everything before the last taken item is expired, so an answer is the oldest live item. */
  lemma {:induction false} TakenExpired(items: seq<Pending>, now: real)
    ensures forall i :: 0 <= i < Taken(items, now) - 1 ==> !Live(items[i], now)
    ensures Answer(items, now).None? <==> forall i :: 0 <= i < |items| ==> !Live(items[i], now)
    ensures Answer(items, now).None? ==> Taken(items, now) == |items|
  {
    if items != [] && !Live(items[0], now) {
      TakenExpired(items[1..], now);
      var n := Taken(items[1..], now);
      assert n > 0 ==> items[1..][n - 1] == items[n];
      forall i | 0 <= i < n ensures !Live(items[i], now) {
        if i > 0 { assert items[i] == items[1..][i - 1]; }
      }
      if Answer(items, now).None? {
        forall i | 0 <= i < |items| ensures !Live(items[i], now) {
          if i > 0 { assert items[i] == items[1..][i - 1]; }
        }
      } else {
        assert Live(items[n], now);
      }
    }
  }

  /** A plain message gets the oldest clarification that is at most half an hour old. */
  lemma AnswerIsOldestLive(items: seq<Pending>, now: real, p: Pending)
    ensures Answer(items, now) == Some(p) <==>
            exists i :: 0 <= i < |items| && items[i] == p && now - p.createdAt <= 1800.0
                        && forall j :: 0 <= j < i ==> now - items[j].createdAt > 1800.0
  {
    TakenExpired(items, now);
    var n := Taken(items, now);
    if i :| 0 <= i < |items| && items[i] == p && now - p.createdAt <= 1800.0
            && forall j :: 0 <= j < i ==> now - items[j].createdAt > 1800.0 {
      assert Live(items[i], now);
      assert i == n - 1;
    }
  }

  lemma ItemsConcat(a: seq<Removal>, b: seq<Removal>)
    ensures Items(a + b) == Items(a) + Items(b)
  {
  }

  lemma RemovalsSplit(items: seq<Pending>, now: real)
    ensures Items(RemovalsOf(items, now)) + items[Taken(items, now)..] == items
  {
    assert Items(RemovalsOf(items, now)) == items[..Taken(items, now)];
  }

  /** First in, first out: what was taken off, then what is still held, is what was remembered, in order. */
  lemma {:induction false} PendingConserved(ops: seq<PendingOp>, key: PendingKey)
    ensures Items(Removals(ops, key)) + Held(RunPending(ops), key) == Remembered(ops, key)
  {
    hide Items, RemovalsOf, Taken;
    if ops == [] {
      EmptyItems();
    } else {
      var before, op := ops[..|ops| - 1], ops[|ops| - 1];
      var held := Held(RunPending(before), key);
      PendingConserved(before, key);
      if op.Consume? && op.key == key {
        RemovalsSplit(held, op.now);
        ItemsConcat(Removals(before, key), RemovalsOf(held, op.now));
        var gone, rest := Items(RemovalsOf(held, op.now)), held[Taken(held, op.now)..];
        assert Held(RunPending(ops), key) == rest;
        assert Items(Removals(before, key)) + (gone + rest) == (Items(Removals(before, key)) + gone) + rest;
      } else {
        assert Removals(ops, key) == Removals(before, key);
      }
    }
  }

  lemma EmptyItems()
    ensures Items([]) == []
  {
  }

  /** Over every run, an item is taken off either handed out within its lifetime or after it has expired. */
  lemma {:induction false} RemovedOnlyForCause(ops: seq<PendingOp>, key: PendingKey, i: nat)
    requires i < |Removals(ops, key)|
    ensures var removal := Removals(ops, key)[i]; removal.handedOut <==> removal.at - removal.item.createdAt <= 1800.0
  {
    var before, op := ops[..|ops| - 1], ops[|ops| - 1];
    if i < |Removals(before, key)| {
      RemovedOnlyForCause(before, key, i);
    } else {
      TakenExpired(Held(RunPending(before), key), op.now);
    }
  }

  /** No key is ever left with an empty list. */
  lemma {:induction false} NoEmptyQueues(ops: seq<PendingOp>)
    ensures forall key :: key in RunPending(ops) ==> RunPending(ops)[key] != []
  {
    if ops != [] { NoEmptyQueues(ops[..|ops| - 1]); }
  }

  /******* Remembering and resolving message ids *******/

  datatype Metadata = Metadata(messageId: Option<string>, rootId: Option<string>, parentId: Option<string>,
                               threadId: Option<string>, topicId: Option<string>, userId: Option<string>,
                               pendingClarification: bool)

  datatype Outbound =
    Outbound(chat: string, threadId: string, threadTs: Option<string>, isFinal: bool, metadata: Metadata)

  /** The ids an outbound message is known by: those of the card just written, then those of its metadata. */
  function TopicIds(msg: Outbound, ids: seq<Option<string>>): seq<Option<string>> {
    var m := msg.metadata;
    ids + [m.messageId, m.rootId, m.parentId, m.threadId, m.topicId]
  }

  predicate Known(ids: seq<Option<string>>, topic: string) {
    exists i :: 0 <= i < |ids| && NonEmpty(ids[i]) == Some(topic)
  }

  predicate KnownKey(chat: string, ids: seq<Option<string>>, key: string) {
    exists i :: 0 <= i < |ids| && NonEmpty(ids[i]).Some? && key == Store.Key(CHANNEL, chat, NonEmpty(ids[i]))
  }

  function UserOf(msg: Outbound): string {
    if msg.metadata.userId.Some? then msg.metadata.userId.value else ""
  }

  /** The store after remembering: exactly the keys of the ids are set to the thread, all else stays. */
  ghost predicate RemembersMapping(d: Store.Data, d': Store.Data, msg: Outbound, ids: seq<Option<string>>, at: real) {
    && (forall key :: key in d' <==> key in d || KnownKey(msg.chat, ids, key))
    && (forall key :: key in d' ==>
          d'[key] == if KnownKey(msg.chat, ids, key)
                     then Store.Entry(msg.threadId, UserOf(msg), if key in d then d[key].createdAt else at, at)
                     else d[key])
  }

  /** A candidate id of a reply that the store maps to a thread. */
  predicate Mapped(d: Store.Data, chat: string, candidate: Option<string>) {
    && NonEmpty(candidate).Some?
    && var thread := Store.Lookup(d, CHANNEL, chat, NonEmpty(candidate));
       thread.Some? && thread.value != ""
  }

  datatype Reply = Reply(chat: string, messageId: string, sender: string, isChat: bool,
                         rootId: Option<string>, parentId: Option<string>, threadId: Option<string>)

  function Candidates(r: Reply): seq<Option<string>> {
    [r.rootId, r.parentId, r.threadId]
  }

  function FirstMapped(d: Store.Data, chat: string, candidates: seq<Option<string>>): Option<string> {
    if candidates == [] then None
    else if Mapped(d, chat, candidates[0]) then NonEmpty(candidates[0])
    else FirstMapped(d, chat, candidates[1..])
  }

  function FreshTopic(r: Reply): string {
    if r.rootId.Some? && r.rootId.value != "" then r.rootId.value else r.messageId
  }

  /** The store key an operation writes or deletes. */
  predicate Overwrites(op: Store.Op, key: string) {
    match op
    case Set(channel, chat, topic, _, _, _) => key == Store.Key(channel, chat, topic)
    case Remove(channel, chat, topic) => Store.Doomed(key, channel, chat, topic)
  }

  lemma {:induction false} NotOverwrittenStays(d: Store.Data, ops: seq<Store.Op>, key: string)
    requires key in d
    requires forall k :: 0 <= k < |ops| ==> !Overwrites(ops[k], key)
    ensures key in Store.Run(d, ops) && Store.Run(d, ops)[key] == d[key]
  {
    if ops != [] { NotOverwrittenStays(d, ops[..|ops| - 1], key); }
  }

  /** For colon-free ids, overwriting a key is an operation on that very conversation. */
  lemma OverwritesIff(op: Store.Op, c: Store.Conversation)
    requires Store.Clean(c) && Store.ColonFree(op)
    ensures Overwrites(op, Store.KeyOf(c)) <==> Store.Touches(op, c)
  {
    Store.CleanRoundTrip(c);
    Store.ParseOfKey(op.channel, op.chat, op.topic);
    if op.Remove? { Store.DoomedIff(c, op.channel, op.chat, op.topic); }
  }

  lemma {:induction false} FirstMappedIsMapped(d: Store.Data, chat: string, candidates: seq<Option<string>>)
    ensures FirstMapped(d, chat, candidates).Some? <==>
            exists i :: 0 <= i < |candidates| && Mapped(d, chat, candidates[i])
    ensures FirstMapped(d, chat, candidates).Some? ==>
            var t := FirstMapped(d, chat, candidates);
            exists i :: 0 <= i < |candidates| && Mapped(d, chat, candidates[i]) && t == NonEmpty(candidates[i])
                        && forall j :: 0 <= j < i ==> !Mapped(d, chat, candidates[j])
  {
    if candidates != [] && !Mapped(d, chat, candidates[0]) {
      FirstMappedIsMapped(d, chat, candidates[1..]);
      forall i | 0 <= i < |candidates| - 1 ensures candidates[1..][i] == candidates[i + 1] {}
      if FirstMapped(d, chat, candidates).Some? {
        var i :| 0 <= i < |candidates| - 1 && Mapped(d, chat, candidates[1..][i])
                 && FirstMapped(d, chat, candidates) == NonEmpty(candidates[1..][i])
                 && forall j :: 0 <= j < i ==> !Mapped(d, chat, candidates[1..][j]);
        assert Mapped(d, chat, candidates[i + 1]);
        forall j | 0 <= j < i + 1 ensures !Mapped(d, chat, candidates[j]) {
          if j > 0 { assert candidates[j] == candidates[1..][j - 1]; }
        }
      }
    }
  }

  /** A remembered id is a mapped candidate, of the very thread, for as long as it is not overwritten. */
  lemma RememberedIsMapped(d: Store.Data, d': Store.Data, msg: Outbound, ids: seq<Option<string>>, at: real,
                           ops: seq<Store.Op>, candidate: Option<string>)
    requires msg.threadId != "" && RemembersMapping(d, d', msg, TopicIds(msg, ids), at)
    requires NonEmpty(candidate).Some? && Known(TopicIds(msg, ids), NonEmpty(candidate).value)
    requires forall k :: 0 <= k < |ops| ==> !Overwrites(ops[k], Store.Key(CHANNEL, msg.chat, NonEmpty(candidate)))
    ensures Mapped(Store.Run(d', ops), msg.chat, candidate)
    ensures Store.Lookup(Store.Run(d', ops), CHANNEL, msg.chat, NonEmpty(candidate)) == Some(msg.threadId)
  {
    var key := Store.Key(CHANNEL, msg.chat, NonEmpty(candidate));
    assert KnownKey(msg.chat, TopicIds(msg, ids), key);
    NotOverwrittenStays(d', ops, key);
  }

  /** Every id passed in and every id of the metadata is remembered, and no other. */
  lemma TopicIdsAre(msg: Outbound, ids: seq<Option<string>>, topic: string)
    ensures
      var m := msg.metadata;
      Known(TopicIds(msg, ids), topic) <==>
      || Known(ids, topic)
      || Some(topic) in {NonEmpty(m.messageId), NonEmpty(m.rootId), NonEmpty(m.parentId), NonEmpty(m.threadId),
                         NonEmpty(m.topicId)}
  {
    hide NonEmpty;
    var m := msg.metadata;
    KnownSnoc(msg.chat, ids, m.messageId);
    KnownSnoc(msg.chat, ids + [m.messageId], m.rootId);
    KnownSnoc(msg.chat, ids + [m.messageId] + [m.rootId], m.parentId);
    KnownSnoc(msg.chat, ids + [m.messageId] + [m.rootId] + [m.parentId], m.threadId);
    KnownSnoc(msg.chat, ids + [m.messageId] + [m.rootId] + [m.parentId] + [m.threadId], m.topicId);
    assert TopicIds(msg, ids) == ids + [m.messageId] + [m.rootId] + [m.parentId] + [m.threadId] + [m.topicId];
  }

  /** A reply resolves by its root id, else by its parent id, else by its thread id: the first that is mapped. */
  lemma ResolvesInOrder(d: Store.Data, r: Reply)
    ensures FirstMapped(d, r.chat, Candidates(r)) ==
            if Mapped(d, r.chat, r.rootId) then NonEmpty(r.rootId)
            else if Mapped(d, r.chat, r.parentId) then NonEmpty(r.parentId)
            else if Mapped(d, r.chat, r.threadId) then NonEmpty(r.threadId)
            else None
  {
    hide Mapped, NonEmpty;
    assert Candidates(r)[1..] == [r.parentId, r.threadId];
    assert [r.parentId, r.threadId][1..] == [r.threadId];
    assert FirstMapped(d, r.chat, [r.threadId]) ==
           if Mapped(d, r.chat, r.threadId) then NonEmpty(r.threadId) else None;
  }

  /** The outbound names this id, among those of the card just written or in its metadata. */
  predicate Names(msg: Outbound, ids: seq<Option<string>>, id: Option<string>) {
    id in ids || id == msg.metadata.messageId || id == msg.metadata.rootId || id == msg.metadata.parentId
    || id == msg.metadata.threadId || id == msg.metadata.topicId
  }

  lemma NamedIsKnown(msg: Outbound, ids: seq<Option<string>>, id: Option<string>)
    requires Names(msg, ids, id) && NonEmpty(id).Some?
    ensures Known(TopicIds(msg, ids), NonEmpty(id).value)
  {
    TopicIdsAre(msg, ids, NonEmpty(id).value);
    if id in ids {
      var i :| 0 <= i < |ids| && ids[i] == id;
      assert NonEmpty(ids[i]) == Some(NonEmpty(id).value);
    }
  }

  lemma NamedIsRemembered(d: Store.Data, d': Store.Data, msg: Outbound, ids: seq<Option<string>>, at: real,
                          id: Option<string>)
    requires RemembersMapping(d, d', msg, TopicIds(msg, ids), at) && Names(msg, ids, id) && NonEmpty(id).Some?
    ensures
      var key := Store.Key("feishu", msg.chat, NonEmpty(id));
      && key in d' && d'[key].threadId == msg.threadId && d'[key].updatedAt == at
      && d'[key].userId == if msg.metadata.userId.Some? then msg.metadata.userId.value else ""
  {
    NamedIsKnown(msg, ids, id);
    assert KnownKey(msg.chat, TopicIds(msg, ids), Store.Key(CHANNEL, msg.chat, NonEmpty(id)));
  }

  /**
   Reply continuity: an outbound on `threadId` named `id` and remembered it. After any store operations that
   do not overwrite it, a reply with that root id resolves to it; one with that parent id does so exactly
   unless another root id is mapped; one with that thread id exactly unless another root id, or without a
   mapped root id another parent id, is mapped. The manager's lookup on it gives the thread.
   */
  lemma ReplyContinuity(d: Store.Data, d': Store.Data, msg: Outbound, ids: seq<Option<string>>, at: real,
                        ops: seq<Store.Op>, r: Reply, id: Option<string>)
    requires msg.threadId != "" && RemembersMapping(d, d', msg, TopicIds(msg, ids), at)
    requires r.chat == msg.chat && Names(msg, ids, id) && NonEmpty(id).Some?
    requires forall k :: 0 <= k < |ops| ==> !Overwrites(ops[k], Store.Key(CHANNEL, msg.chat, NonEmpty(id)))
    ensures
      var after, topic := Store.Run(d', ops), NonEmpty(id);
      var first := FirstMapped(after, r.chat, Candidates(r));
      var root, parent := NonEmpty(r.rootId), NonEmpty(r.parentId);
      var rootMapped, parentMapped := Mapped(after, r.chat, r.rootId), Mapped(after, r.chat, r.parentId);
      && Store.Lookup(after, CHANNEL, r.chat, topic) == Some(msg.threadId)
      && (NonEmpty(r.rootId) == topic ==> first == topic)
      && (NonEmpty(r.parentId) == topic ==> (first == topic <==> !rootMapped || root == topic))
      && (NonEmpty(r.threadId) == topic ==>
            (first == topic <==> if rootMapped then root == topic else !parentMapped || parent == topic))
  {
    NamedIsKnown(msg, ids, id);
    RememberedIsMapped(d, d', msg, ids, at, ops, id);
    hide *;
    MappedResolves(Store.Run(d', ops), r, id);
  }

  lemma MappedResolves(d: Store.Data, r: Reply, id: Option<string>)
    requires Mapped(d, r.chat, id)
    ensures
      var first, topic := FirstMapped(d, r.chat, Candidates(r)), NonEmpty(id);
      var root, parent := NonEmpty(r.rootId), NonEmpty(r.parentId);
      var rootMapped, parentMapped := Mapped(d, r.chat, r.rootId), Mapped(d, r.chat, r.parentId);
      && (NonEmpty(r.rootId) == topic ==> first == topic)
      && (NonEmpty(r.parentId) == topic ==> (first == topic <==> !rootMapped || root == topic))
      && (NonEmpty(r.threadId) == topic ==>
            (first == topic <==> if rootMapped then root == topic else !parentMapped || parent == topic))
  {
    hide NonEmpty, FirstMapped, Candidates, Store.Lookup;
    ResolvesInOrder(d, r);
  }

  /******* Answering a clarification *******/

  /** What a message leaves behind to be answered: final clarifications with every id present. */
  function Clarification(msg: Outbound, cardId: Option<string>, now: real): Option<PendingOp> {
    var user, topic := NonEmpty(msg.metadata.userId), NonEmpty(msg.metadata.topicId);
    var source := if NonEmpty(msg.threadTs).Some? then NonEmpty(msg.threadTs) else NonEmpty(msg.metadata.messageId);
    if msg.isFinal && msg.metadata.pendingClarification && user.Some? && topic.Some? && msg.threadId != ""
       && source.Some? && cardId.Some? && cardId.value != ""
    then Some(Remember(PendingKey(msg.chat, user.value),
                       Pending(msg.threadId, topic.value, source.value, cardId.value, now)))
    else None
  }

  datatype Exchange = Sent(msg: Outbound, cardId: Option<string>, at: real) | Received(key: PendingKey, at: real)

  function OpOf(e: Exchange): Option<PendingOp> {
    match e
    case Sent(msg, cardId, at) => Clarification(msg, cardId, at)
    case Received(key, at) => Some(Consume(key, at))
  }

  /** The queue operations of a conversation. */
  function OpsOf(history: seq<Exchange>): seq<PendingOp> {
    if history == [] then []
    else
      var op := OpOf(history[|history| - 1]);
      OpsOf(history[..|history| - 1]) + (if op.Some? then [op.value] else [])
  }

  lemma {:induction false} OpsComeFromHistory(history: seq<Exchange>, op: PendingOp)
    requires op in OpsOf(history)
    ensures exists k :: 0 <= k < |history| && OpOf(history[k]) == Some(op)
  {
    hide OpOf;
    var n := |history| - 1;
    if op in OpsOf(history[..n]) {
      OpsComeFromHistory(history[..n], op);
      var k :| 0 <= k < n && OpOf(history[..n][k]) == Some(op);
      assert OpOf(history[k]) == Some(op);
    } else {
      assert OpOf(history[n]) == Some(op);
    }
  }

  lemma {:induction false} RememberedOps(ops: seq<PendingOp>, key: PendingKey, p: Pending)
    requires p in Remembered(ops, key)
    ensures Remember(key, p) in ops
  {
    var n := |ops| - 1;
    if p in Remembered(ops[..n], key) {
      RememberedOps(ops[..n], key, p);
    } else {
      assert ops[n] == Remember(key, p);
    }
  }

  /** Over every run, what is handed out was remembered under that key and is still alive. */
  lemma AnswerWasRemembered(ops: seq<PendingOp>, key: PendingKey, now: real, p: Pending)
    requires Answer(Held(RunPending(ops), key), now) == Some(p)
    ensures Remember(key, p) in ops && now - p.createdAt <= 1800.0
  {
    PendingConserved(ops, key);
    var held, gone := Held(RunPending(ops), key), Items(Removals(ops, key));
    assert p in held;
    assert p in gone + held;
    RememberedOps(ops, key, p);
  }

  /** The store after a clarification was taken: its mapping is set again, unless an id is blank. */
  function Restored(d: Store.Data, key: PendingKey, p: Pending, now: real): Store.Data {
    var topic, thread := Strip(p.topicId), Strip(p.threadId);
    if topic == "" || thread == "" then d
    else Store.Apply(d, Store.Set(CHANNEL, key.chat, Some(topic), thread, key.user, now))
  }

  /**
   Clarification continuity: a plain message that takes a clarification out of any history was preceded by
   the outbound that asked it, in the same chat and for the same user. It is routed to that outbound's topic,
   and after any store operations that do not overwrite it the lookup gives that outbound's thread, if and
   only if the thread id has no surrounding whitespace.
   */
  lemma PendingContinuity(history: seq<Exchange>, key: PendingKey, now: real, p: Pending,
                          d: Store.Data, ops: seq<Store.Op>)
    requires Answer(Held(RunPending(OpsOf(history)), key), now) == Some(p)
    requires forall k :: 0 <= k < |ops| ==> !Overwrites(ops[k], Store.Key(CHANNEL, key.chat, Some(p.topicId)))
    ensures now - p.createdAt <= 1800.0 && Strip(p.topicId) == p.topicId != ""
    ensures exists k :: 0 <= k < |history| && Asked(history[k], key, p)
    ensures
      var thread := Store.Lookup(Store.Run(Restored(d, key, p, now), ops), CHANNEL, key.chat, Some(p.topicId));
      Strip(p.threadId) != "" ==>
        thread == Some(Strip(p.threadId)) && (thread == Some(p.threadId) <==> Trimmed(p.threadId))
  {
    hide OpsOf, RunPending, Held, Answer, OpOf, Asked, Strip, NonEmpty, Trimmed, Store.Key, Store.Run;
    AnswerWasRemembered(OpsOf(history), key, now, p);
    OpsComeFromHistory(history, Remember(key, p));
    var k :| 0 <= k < |history| && OpOf(history[k]) == Some(Remember(key, p));
    AskedByOutbound(history[k], key, p);
    StripTrims(p.threadId);
    if Strip(p.threadId) != "" {
      NotOverwrittenStays(Restored(d, key, p, now), ops, Store.Key(CHANNEL, key.chat, Some(p.topicId)));
    }
  }

  /** An outbound leaves a clarification behind exactly if it asks one and every id of it is there. */
  lemma AskedIff(e: Exchange, key: PendingKey, p: Pending)
    ensures OpOf(e) == Some(Remember(key, p)) <==> Asked(e, key, p)
  {
    hide Strip;
  }

  lemma AskedByOutbound(e: Exchange, key: PendingKey, p: Pending)
    requires OpOf(e) == Some(Remember(key, p))
    ensures Asked(e, key, p) && Strip(p.topicId) == p.topicId != ""
  {
    hide Strip;
    AskedIff(e, key, p);
    StripTrims(e.msg.metadata.topicId.value);
    StripTrims(p.topicId);
  }

  /** The exchange is the outbound that left this clarification behind. */
  predicate Asked(e: Exchange, key: PendingKey, p: Pending) {
    && e.Sent? && e.msg.isFinal && e.msg.metadata.pendingClarification
    && e.msg.chat == key.chat && NonEmpty(e.msg.metadata.userId) == Some(key.user)
    && e.msg.threadId == p.threadId != "" && NonEmpty(e.msg.metadata.topicId) == Some(p.topicId) && e.at == p.createdAt
    && e.cardId == Some(p.cardId) && p.cardId != ""
    && Some(p.sourceId) == (if NonEmpty(e.msg.threadTs).Some? then NonEmpty(e.msg.threadTs)
                            else NonEmpty(e.msg.metadata.messageId))
  }

  /** A conversation in two parts is one of their operations in turn. */
  lemma {:induction false} OpsInTurn(a: seq<Exchange>, b: seq<Exchange>)
    ensures OpsOf(a + b) == OpsOf(a) + OpsOf(b)
  {
    hide OpOf;
    if b == [] {
      assert a + b == a;
    } else {
      var n := |b| - 1;
      OpsInTurn(a, b[..n]);
      assert (a + b)[..|a + b| - 1] == a + b[..n];
    }
  }

  /** A question put to a user who is asked nothing else is taken up by a plain message within half an hour. */
  lemma QuestionIsTakenUp(history: seq<Exchange>, e: Exchange, key: PendingKey, p: Pending, now: real)
    requires Held(RunPending(OpsOf(history)), key) == [] && Asked(e, key, p)
    ensures now - e.at <= 1800.0 ==> Answer(Held(RunPending(OpsOf(history + [e])), key), now) == Some(p)
  {
    hide NonEmpty, OpOf, OpsOf, RunPending, Held;
    AskedIff(e, key, p);
    OpsNext(history, e, Remember(key, p));
    RememberedAlone(OpsOf(history), key, p);
  }

  lemma OpsNext(history: seq<Exchange>, e: Exchange, op: PendingOp)
    requires OpOf(e) == Some(op)
    ensures OpsOf(history + [e]) == OpsOf(history) + [op]
  {
    hide OpOf;
    assert (history + [e])[..|history|] == history;
  }

  lemma RememberedAlone(ops: seq<PendingOp>, key: PendingKey, p: Pending)
    requires Held(RunPending(ops), key) == []
    ensures Held(RunPending(ops + [Remember(key, p)]), key) == [p]
  {
    assert (ops + [Remember(key, p)])[..|ops|] == ops;
  }

  /******* The adapter *******/

  class FeishuThreads {
    const store: Store.ChannelStore
    var pending: Waiting

    ghost predicate Valid()
      reads this, store
    {
      store.Valid() && forall key :: key in pending ==> pending[key] != []
    }

    constructor (s: Store.ChannelStore)
      requires s.Valid()
      ensures Valid() && store == s && pending == map[]
    {
      store, pending := s, map[];
    }

    method RememberThreadMapping(msg: Outbound, ids: seq<Option<string>>, now: real)
      requires Valid()
      modifies store
      ensures Valid()
      ensures if msg.threadId == "" then store.data == old(store.data)
              else RemembersMapping(old(store.data), store.data, msg, TopicIds(msg, ids), now)
      ensures msg.threadId != "" ==> forall id :: Names(msg, ids, id) && NonEmpty(id).Some? ==>
        var key := Store.Key("feishu", msg.chat, NonEmpty(id));
        && key in store.data && store.data[key].threadId == msg.threadId && store.data[key].updatedAt == now
        && store.data[key].userId == if msg.metadata.userId.Some? then msg.metadata.userId.value else ""
    {
      hide RemembersMapping, KnownKey, Known, NonEmpty, TopicIds, UserOf, Store.Apply, Store.Key;
      if msg.threadId == "" { return; }
      var userId := UserOf(msg);
      var topics := TopicIds(msg, ids);
      var seen: set<string> := {};
      var i := 0;
      RememberNothing(store.data, msg, now);
      while i < |topics|
        invariant 0 <= i <= |topics| && Valid()
        invariant forall t :: t in seen <==> Known(topics[..i], t)
        invariant RemembersMapping(old(store.data), store.data, msg, topics[..i], now)
      {
        assert topics[..i + 1] == topics[..i] + [topics[i]];
        KnownSnoc(msg.chat, topics[..i], topics[i]);
        RememberStep(old(store.data), store.data, msg, topics[..i], topics[i], now);
        var topic := NonEmpty(topics[i]);
        if topic.Some? && topic.value !in seen {
          seen := seen + {topic.value};
          store.SetThreadId(CHANNEL, msg.chat, msg.threadId, topic, userId, now);
        }
        i := i + 1;
      }
      assert topics[..|topics|] == topics;
      forall id | Names(msg, ids, id) && NonEmpty(id).Some?
        ensures
          var key := Store.Key("feishu", msg.chat, NonEmpty(id));
          && key in store.data && store.data[key].threadId == msg.threadId && store.data[key].updatedAt == now
          && store.data[key].userId == if msg.metadata.userId.Some? then msg.metadata.userId.value else ""
      {
        NamedIsRemembered(old(store.data), store.data, msg, ids, now, id);
      }
    }

    method RememberPendingClarification(msg: Outbound, cardId: Option<string>, now: real)
      requires Valid()
      modifies this
      ensures Valid()
      ensures
        var op := Clarification(msg, cardId, now);
        pending == if op.Some? then StepPending(old(pending), op.value) else old(pending)
    {
      if !msg.isFinal || !msg.metadata.pendingClarification { return; }
      var user, topic := NonEmpty(msg.metadata.userId), NonEmpty(msg.metadata.topicId);
      var source := NonEmpty(msg.threadTs);
      if source.None? { source := NonEmpty(msg.metadata.messageId); }
      if user.None? || topic.None? || msg.threadId == "" || source.None? || cardId.None? || cardId.value == "" {
        return;
      }
      var key := PendingKey(msg.chat, user.value);
      var item := Pending(msg.threadId, topic.value, source.value, cardId.value, now);
      pending := pending[key := (if key in pending then pending[key] else []) + [item]];
    }

    method ConsumePendingClarification(chat: string, user: string, now: real) returns (answer: Option<Pending>)
      requires Valid()
      modifies this
      ensures Valid()
      ensures pending == StepPending(old(pending), Consume(PendingKey(chat, user), now))
      ensures answer == Answer(Held(old(pending), PendingKey(chat, user)), now)
    {
      var key := PendingKey(chat, user);
      if key !in pending {
        assert pending - {key} == pending;
        return None;
      }
      var items := pending[key];
      ghost var all := items;
      ghost var n := 0;
      while items != []
        invariant 0 <= n <= |all| && items == all[n..]
        invariant Taken(all, now) == n + Taken(items, now)
        invariant forall i :: 0 <= i < n ==> !Live(all[i], now)
        decreases items
      {
        var item := items[0];
        items := items[1..];
        if Live(item, now) {
          assert Taken(all, now) == n + 1 && all[n] == item;
          assert items == all[n + 1..];
          if items != [] { pending := pending[key := items]; } else { pending := pending - {key}; }
          return Some(item);
        }
        n := n + 1;
      }
      pending := pending - {key};
      assert Taken(all, now) == |all| && all[|all|..] == [];
      return None;
    }

    method ResolveTopicId(r: Reply) returns (topic: string, stored: bool)
      ensures
        var first := FirstMapped(store.data, r.chat, Candidates(r));
        stored == first.Some? && topic == if first.Some? then first.value else FreshTopic(r)
      ensures
        if Mapped(store.data, r.chat, r.rootId) then stored && Some(topic) == NonEmpty(r.rootId)
        else if Mapped(store.data, r.chat, r.parentId) then stored && Some(topic) == NonEmpty(r.parentId)
        else if Mapped(store.data, r.chat, r.threadId) then stored && Some(topic) == NonEmpty(r.threadId)
        else !stored && topic == if r.rootId.Some? && r.rootId.value != "" then r.rootId.value else r.messageId
      ensures stored ==> Store.Lookup(store.data, CHANNEL, r.chat, Some(topic)) !in {None, Some("")}
    {
      ResolvesInOrder(store.data, r);
      var candidates := Candidates(r);
      var i := 0;
      while i < |candidates|
        invariant 0 <= i <= |candidates|
        invariant FirstMapped(store.data, r.chat, candidates) == FirstMapped(store.data, r.chat, candidates[i..])
      {
        var candidate := NonEmpty(candidates[i]);
        if candidate.Some? {
          var thread := store.GetThreadId(CHANNEL, r.chat, candidate);
          if thread.Some? && thread.value != "" { return candidate.value, true; }
        }
        assert candidates[i..][1..] == candidates[i + 1..];
        i := i + 1;
      }
      return if r.rootId.Some? && r.rootId.value != "" then r.rootId.value else r.messageId, false;
    }

    /**
     The topic of an inbound message: a stored mapping first, then a waiting clarification, then a fresh one.
     A message that answers a clarification finds the clarification's thread under its topic.
     */
    method RouteInbound(r: Reply, now: real) returns (topic: string, fromPending: bool)
      requires Valid()
      modifies this, store
      ensures Valid()
      ensures
        var first := FirstMapped(old(store.data), r.chat, Candidates(r));
        var key := PendingKey(r.chat, r.sender);
        var answer := if r.isChat then Answer(Held(old(pending), key), now) else None;
        if first.Some? then
          && topic == first.value && !fromPending && pending == old(pending) && store.data == old(store.data)
          && Some(topic) == (if Mapped(old(store.data), r.chat, r.rootId) then NonEmpty(r.rootId)
                             else if Mapped(old(store.data), r.chat, r.parentId) then NonEmpty(r.parentId)
                             else NonEmpty(r.threadId))
        else
          && pending == (if r.isChat then StepPending(old(pending), Consume(key, now)) else old(pending))
          && (fromPending <==> answer.Some? && Strip(answer.value.topicId) != "")
          && (!fromPending ==> topic == FreshTopic(r) && store.data == old(store.data))
          && (fromPending ==>
                topic == Strip(answer.value.topicId) && store.data == Restored(old(store.data), key, answer.value, now))
          && (fromPending && Strip(answer.value.threadId) != "" ==>
                var entry := Store.Key("feishu", r.chat, Some(topic));
                && entry in store.data && store.data[entry].threadId == Strip(answer.value.threadId)
                && store.data[entry].userId == r.sender && store.data[entry].updatedAt == now)
    {
      var stored;
      topic, stored := ResolveTopicId(r);
      fromPending := false;
      if r.isChat && !stored {
        var answer := ConsumePendingClarification(r.chat, r.sender, now);
        if answer.Some? && NonEmpty(Some(answer.value.topicId)).Some? {
          topic, fromPending := Strip(answer.value.topicId), true;
          var thread := NonEmpty(Some(answer.value.threadId));
          if thread.Some? {
            store.SetThreadId(CHANNEL, r.chat, thread.value, Some(topic), r.sender, now);
          }
        }
      }
    }
  }

  lemma RememberNothing(d: Store.Data, msg: Outbound, at: real)
    ensures RemembersMapping(d, d, msg, [], at) && forall t :: !Known([], t)
  {
  }

  /** Remembering one more id: nothing to do if it is blank or already known, else one store update. */
  lemma RememberStep(d0: Store.Data, d: Store.Data, msg: Outbound,
                     ids: seq<Option<string>>, id: Option<string>, at: real)
    requires RemembersMapping(d0, d, msg, ids, at)
    ensures NonEmpty(id).None? || Known(ids, NonEmpty(id).value) ==> RemembersMapping(d0, d, msg, ids + [id], at)
    ensures NonEmpty(id).Some? ==>
      var update := Store.Set(CHANNEL, msg.chat, NonEmpty(id), msg.threadId, UserOf(msg), at);
      RemembersMapping(d0, Store.Apply(d, update), msg, ids + [id], at)
  {
    hide NonEmpty, Store.Key;
    KnownSnoc(msg.chat, ids, id);
    if NonEmpty(id).Some? && Known(ids, NonEmpty(id).value) {
      assert KnownKey(msg.chat, ids, Store.Key(CHANNEL, msg.chat, NonEmpty(id)));
    }
  }

  lemma KnownSnoc(chat: string, ids: seq<Option<string>>, id: Option<string>)
    ensures forall t :: Known(ids + [id], t) <==> Known(ids, t) || NonEmpty(id) == Some(t)
    ensures forall key :: KnownKey(chat, ids + [id], key) <==>
      KnownKey(chat, ids, key) || (NonEmpty(id).Some? && key == Store.Key(CHANNEL, chat, NonEmpty(id)))
  {
    var all := ids + [id];
    assert all[|ids|] == id;
    assert forall i :: 0 <= i < |ids| ==> all[i] == ids[i];
    forall t | Known(ids, t) ensures Known(all, t) {
      var i :| 0 <= i < |ids| && NonEmpty(ids[i]) == Some(t);
      assert NonEmpty(all[i]) == Some(t);
    }
    forall key | KnownKey(chat, ids, key) ensures KnownKey(chat, all, key) {
      var i :| 0 <= i < |ids| && NonEmpty(ids[i]).Some? && key == Store.Key(CHANNEL, chat, NonEmpty(ids[i]));
      assert NonEmpty(all[i]).Some?;
    }
  }

  /** The pending answer keeps the very thread id exactly when that id has no surrounding whitespace. */
  lemma PendingThreadKeptIff(threadId: string)
    requires threadId != ""
    ensures NonEmpty(Some(threadId)) == Some(threadId) <==> Trimmed(threadId)
  {
    StripTrims(threadId);
  }
}
