/**
 The flat, string-keyed store that maps IM conversations to threads, and the sense in which it is a
 map on (channel, chat, optional topic).
 */
module ChannelStore {
  import opened Options
  import opened Text

  datatype Conversation = Conversation(channel: string, chat: string, topic: Option<string>)

  datatype Entry = Entry(threadId: string, userId: string, createdAt: real, updatedAt: real)

  type Data = map<string, Entry>

  /******* Keys *******/

  /** An empty topic counts as no topic. */
  function Normal(topic: Option<string>): Option<string> {
    if topic == Some("") then None else topic
  }

  function Key(channel: string, chat: string, topic: Option<string>): string {
    match Normal(topic)
    case None => channel + [':'] + chat
    case Some(t) => channel + [':'] + chat + [':'] + t
  }

  /** `key.split(":", 2)`, with the defaults `list_entries` uses for missing parts. */
  function ParseKey(key: string): Conversation {
    match Partition(key, ':')
    case None => Conversation(key, "", None)
    case Some(first) =>
      match Partition(first.1, ':')
      case None => Conversation(first.0, first.1, None)
      case Some(second) => Conversation(first.0, second.0, Some(second.1))
  }

  function KeyOf(c: Conversation): string {
    Key(c.channel, c.chat, c.topic)
  }

  /** The conversations the store tells apart: no colon before the topic, no empty topic. */
  predicate Clean(c: Conversation) {
    ':' !in c.channel && ':' !in c.chat && c.topic != Some("")
  }

  lemma ParseOfKey(channel: string, chat: string, topic: Option<string>)
    requires ':' !in channel && ':' !in chat
    ensures ParseKey(Key(channel, chat, topic)) == Conversation(channel, chat, Normal(topic))
  {
    var rest := if Normal(topic).None? then chat else chat + [':'] + Normal(topic).value;
    assert Key(channel, chat, topic) == channel + [':'] + rest;
    PartitionOf(channel, ':', rest);
    if Normal(topic).None? {
      PartitionSplits(chat, ':');
    } else {
      PartitionOf(chat, ':', Normal(topic).value);
    }
  }

  lemma ParseIsClean(key: string)
    ensures var c := ParseKey(key); ':' !in c.channel && ':' !in c.chat
  {
    PartitionSplits(key, ':');
    match Partition(key, ':')
    case None =>
    case Some(first) => PartitionSplits(first.1, ':');
  }

  /** Keys determine their parts exactly when channel and chat contain no colon; topics are free. */
  lemma KeyReadableIff(channel: string, chat: string)
    ensures (forall topic :: ParseKey(Key(channel, chat, topic)) == Conversation(channel, chat, Normal(topic)))
            <==> ':' !in channel && ':' !in chat
  {
    if ':' !in channel && ':' !in chat {
      forall topic { ParseOfKey(channel, chat, topic); }
    } else {
      ParseIsClean(Key(channel, chat, None));
    }
  }

  /** With a colon in the chat id, two conversations share one key. */
  lemma KeysCollide(channel: string, chat: string, topic: string)
    requires topic != ""
    ensures Key(channel, chat + [':'] + topic, None) == Key(channel, chat, Some(topic))
  {
  }

  /******* Operations on the flat dictionary *******/

  datatype Op =
    | Set(channel: string, chat: string, topic: Option<string>, threadId: string, userId: string, now: real)
    | Remove(channel: string, chat: string, topic: Option<string>)

  function SetData(d: Data, key: string, threadId: string, userId: string, now: real): Data {
    d[key := Entry(threadId, userId, if key in d then d[key].createdAt else now, now)]
  }

  /** Removal with a topic, even an empty one, concerns one key; without one, every key of the chat. */
  predicate Doomed(key: string, channel: string, chat: string, topic: Option<string>) {
    if topic.Some? then key == Key(channel, chat, topic)
    else key == Key(channel, chat, None) || Key(channel, chat, None) + [':'] <= key
  }

  function RemoveData(d: Data, channel: string, chat: string, topic: Option<string>): Data {
    map key | key in d && !Doomed(key, channel, chat, topic) :: d[key]
  }

  function Apply(d: Data, op: Op): Data {
    match op
    case Set(channel, chat, topic, threadId, userId, now) =>
      SetData(d, Key(channel, chat, topic), threadId, userId, now)
    case Remove(channel, chat, topic) => RemoveData(d, channel, chat, topic)
  }

  function Lookup(d: Data, channel: string, chat: string, topic: Option<string>): Option<string> {
    var key := Key(channel, chat, topic);
    if key in d then Some(d[key].threadId) else None
  }

  function Run(d: Data, ops: seq<Op>): Data {
    if ops == [] then d else Apply(Run(d, ops[..|ops| - 1]), ops[|ops| - 1])
  }

  /******* The map it stands for *******/

  type Model = map<Conversation, Entry>

  function ApplyModel(m: Model, op: Op): Model {
    match op
    case Set(channel, chat, topic, threadId, userId, now) =>
      var c := Conversation(channel, chat, Normal(topic));
      m[c := Entry(threadId, userId, if c in m then m[c].createdAt else now, now)]
    case Remove(channel, chat, topic) =>
      if topic.Some? then m - {Conversation(channel, chat, Normal(topic))}
      else map c | c in m && !(c.channel == channel && c.chat == chat) :: m[c]
  }

  function RunModel(m: Model, ops: seq<Op>): Model {
    if ops == [] then m else ApplyModel(RunModel(m, ops[..|ops| - 1]), ops[|ops| - 1])
  }

  ghost predicate Represents(d: Data, m: Model) {
    && (forall c :: c in m ==> Clean(c) && KeyOf(c) in d && d[KeyOf(c)] == m[c])
    && (forall key :: key in d ==> ParseKey(key) in m && KeyOf(ParseKey(key)) == key)
  }

  predicate ColonFree(op: Op) {
    ':' !in op.channel && ':' !in op.chat
  }

  lemma CleanRoundTrip(c: Conversation)
    requires Clean(c)
    ensures ParseKey(KeyOf(c)) == c
  {
    ParseOfKey(c.channel, c.chat, c.topic);
  }

  /** A key is touched by a chat-wide removal exactly if it names that chat. */
  lemma DoomedIff(c: Conversation, channel: string, chat: string, topic: Option<string>)
    requires Clean(c) && ':' !in channel && ':' !in chat
    ensures Doomed(KeyOf(c), channel, chat, topic) <==>
            c.channel == channel && c.chat == chat && (topic.Some? ==> c.topic == Normal(topic))
  {
    CleanRoundTrip(c);
    ParseOfKey(channel, chat, topic);
    if topic.None? {
      ParseOfKey(channel, chat, None);
      hide ParseKey;
      if Key(channel, chat, None) + [':'] <= KeyOf(c) { PrefixNamesChat(KeyOf(c), channel, chat); }
      if c.channel == channel && c.chat == chat && c.topic.Some? {
        assert KeyOf(c) == Key(channel, chat, None) + [':'] + c.topic.value;
      }
    }
  }

  lemma PrefixNamesChat(key: string, channel: string, chat: string)
    requires ':' !in channel && ':' !in chat && Key(channel, chat, None) + [':'] <= key
    ensures ParseKey(key).channel == channel && ParseKey(key).chat == chat
  {
    var rest := key[|Key(channel, chat, None)| + 1..];
    assert key == channel + [':'] + (chat + [':'] + rest);
    PartitionOf(channel, ':', chat + [':'] + rest);
    PartitionOf(chat, ':', rest);
  }

  lemma SetRefines(d: Data, m: Model, op: Op)
    requires Represents(d, m) && op.Set? && ColonFree(op)
    ensures Represents(Apply(d, op), ApplyModel(m, op))
  {
    var c := Conversation(op.channel, op.chat, Normal(op.topic));
    CleanRoundTrip(c);
    assert KeyOf(c) == Key(op.channel, op.chat, op.topic);
    assert KeyOf(c) in d <==> c in m;
    forall b | b in m ensures KeyOf(b) == KeyOf(c) ==> b == c { CleanRoundTrip(b); }
  }

  lemma RemoveRefines(d: Data, m: Model, op: Op)
    requires Represents(d, m) && op.Remove? && ColonFree(op)
    ensures Represents(Apply(d, op), ApplyModel(m, op))
  {
    forall c | c in m
      ensures Doomed(KeyOf(c), op.channel, op.chat, op.topic) <==> c !in ApplyModel(m, op)
    {
      DoomedIff(c, op.channel, op.chat, op.topic);
    }
  }

  /** Store refinement over every run of colon-free operations. */
  lemma {:induction false} RunRefines(d: Data, m: Model, ops: seq<Op>)
    requires Represents(d, m)
    requires forall k :: 0 <= k < |ops| ==> ColonFree(ops[k])
    ensures Represents(Run(d, ops), RunModel(m, ops))
  {
    if ops != [] {
      var n := |ops| - 1;
      RunRefines(d, m, ops[..n]);
      if ops[n].Set? { SetRefines(Run(d, ops[..n]), RunModel(m, ops[..n]), ops[n]); }
      else { RemoveRefines(Run(d, ops[..n]), RunModel(m, ops[..n]), ops[n]); }
    }
  }

  /** Lookup is lookup in the map. */
  lemma LookupRefines(d: Data, m: Model, channel: string, chat: string, topic: Option<string>)
    requires Represents(d, m) && ':' !in channel && ':' !in chat
    ensures
      var c := Conversation(channel, chat, Normal(topic));
      Lookup(d, channel, chat, topic) == if c in m then Some(m[c].threadId) else None
  {
    var c := Conversation(channel, chat, Normal(topic));
    CleanRoundTrip(c);
    assert KeyOf(c) == Key(channel, chat, topic);
  }

  predicate Touches(op: Op, c: Conversation) {
    && op.channel == c.channel && op.chat == c.chat
    && (Normal(op.topic) == c.topic || (op.Remove? && op.topic.None?))
  }

  /** A mapping stays what the last `Set` made it until an operation on that conversation. */
  lemma {:induction false} UntouchedStays(m: Model, ops: seq<Op>, c: Conversation)
    requires forall k :: 0 <= k < |ops| ==> !Touches(ops[k], c)
    ensures c in RunModel(m, ops) <==> c in m
    ensures c in m ==> RunModel(m, ops)[c] == m[c]
  {
    if ops != [] { UntouchedStays(m, ops[..|ops| - 1], c); }
  }

  /** The creation time survives every update; only removal forgets it. */
  lemma {:induction false} CreatedAtSurvives(m: Model, ops: seq<Op>, c: Conversation)
    requires c in m
    requires forall k :: 0 <= k < |ops| ==> ops[k].Set? || !Touches(ops[k], c)
    ensures c in RunModel(m, ops) && RunModel(m, ops)[c].createdAt == m[c].createdAt
  {
    if ops != [] { CreatedAtSurvives(m, ops[..|ops| - 1], c); }
  }

  /** On every dictionary a run can reach, operations on other conversations leave the whole entry alone. */
  lemma EntryStays(before: seq<Op>, ops: seq<Op>, channel: string, chat: string, topic: Option<string>)
    requires forall k :: 0 <= k < |before| ==> ColonFree(before[k])
    requires forall k :: 0 <= k < |ops| ==> ColonFree(ops[k])
    requires ':' !in channel && ':' !in chat
    requires forall k :: 0 <= k < |ops| ==> !Touches(ops[k], Conversation(channel, chat, Normal(topic)))
    ensures
      var d, d', key := Run(map[], before), Run(Run(map[], before), ops), Key(channel, chat, topic);
      (key in d' <==> key in d) && (key in d ==> d'[key] == d[key])
  {
    var c := Conversation(channel, chat, Normal(topic));
    CleanRoundTrip(c);
    RunRefines(map[], map[], before);
    RunRefines(Run(map[], before), RunModel(map[], before), ops);
    hide Run, RunModel, Touches, Clean;
    UntouchedStays(RunModel(map[], before), ops, c);
    EntryOf(Run(map[], before), RunModel(map[], before), c);
    EntryOf(Run(Run(map[], before), ops), RunModel(RunModel(map[], before), ops), c);
  }

  /** The same for the creation time, which updates of the conversation itself keep as well. */
  lemma EntryKeepsCreatedAt(before: seq<Op>, ops: seq<Op>, channel: string, chat: string, topic: Option<string>)
    requires forall k :: 0 <= k < |before| ==> ColonFree(before[k])
    requires forall k :: 0 <= k < |ops| ==> ColonFree(ops[k])
    requires ':' !in channel && ':' !in chat
    requires forall k :: 0 <= k < |ops| ==> ops[k].Set? || !Touches(ops[k], Conversation(channel, chat, Normal(topic)))
    ensures
      var d, d', key := Run(map[], before), Run(Run(map[], before), ops), Key(channel, chat, topic);
      key in d ==> key in d' && d'[key].createdAt == d[key].createdAt
  {
    var c := Conversation(channel, chat, Normal(topic));
    CleanRoundTrip(c);
    RunRefines(map[], map[], before);
    RunRefines(Run(map[], before), RunModel(map[], before), ops);
    hide Run, RunModel, Touches, Clean;
    EntryOf(Run(map[], before), RunModel(map[], before), c);
    if c in RunModel(map[], before) { CreatedAtSurvives(RunModel(map[], before), ops, c); }
    EntryOf(Run(Run(map[], before), ops), RunModel(RunModel(map[], before), ops), c);
  }

  /** On every dictionary a run can reach, a mapping that was set is read back until its conversation is touched. */
  lemma SetIsRead(before: seq<Op>, op: Op, ops: seq<Op>)
    requires forall k :: 0 <= k < |before| ==> ColonFree(before[k])
    requires forall k :: 0 <= k < |ops| ==> ColonFree(ops[k])
    requires ColonFree(op) && op.Set?
    requires forall k :: 0 <= k < |ops| ==> !Touches(ops[k], Conversation(op.channel, op.chat, Normal(op.topic)))
    ensures
      var was, d, key := Run(map[], before), Run(Run(map[], before + [op]), ops), Key(op.channel, op.chat, op.topic);
      && Lookup(d, op.channel, op.chat, op.topic) == Some(op.threadId)
      && key in d && d[key].userId == op.userId && d[key].updatedAt == op.now
      && d[key].createdAt == if key in was then was[key].createdAt else op.now
  {
    hide Touches, Key;
    assert (before + [op])[..|before|] == before;
    EntryStays(before + [op], ops, op.channel, op.chat, op.topic);
  }

  lemma EntryOf(d: Data, m: Model, c: Conversation)
    requires Represents(d, m) && Clean(c)
    ensures KeyOf(c) in d <==> c in m
    ensures c in m ==> d[KeyOf(c)] == m[c]
  {
    CleanRoundTrip(c);
  }

  /******* The store object *******/

  datatype Item = Item(channel: string, chat: string, topic: Option<string>, entry: Entry)

  function ItemOf(d: Data, key: string): Item
    requires key in d
  {
    var c := ParseKey(key);
    Item(c.channel, c.chat, c.topic, d[key])
  }

  predicate Listed(channel: Option<string>, item: Item) {
    Normal(channel).None? || item.channel == channel.value
  }

  /** The items of the keys in order, of one channel or of all. */
  function Listing(d: Data, order: seq<string>, channel: Option<string>): seq<Item>
    requires forall i :: 0 <= i < |order| ==> order[i] in d
  {
    if order == [] then []
    else
      var n := |order| - 1;
      Listing(d, order[..n], channel) + (if Listed(channel, ItemOf(d, order[n])) then [ItemOf(d, order[n])] else [])
  }

  lemma {:induction false} ListingMembers(d: Data, order: seq<string>, channel: Option<string>, item: Item)
    requires forall i :: 0 <= i < |order| ==> order[i] in d
    ensures item in Listing(d, order, channel) <==>
            Listed(channel, item) && exists key :: key in order && item == ItemOf(d, key)
  {
    hide ItemOf, Listed;
    if order != [] {
      var n := |order| - 1;
      ListingMembers(d, order[..n], channel, item);
      assert order == order[..n] + [order[n]];
    }
  }

  /** Where the dictionary represents conversations, none is listed twice. */
  lemma {:induction false} ListingDistinct(d: Data, m: Model, order: seq<string>, channel: Option<string>)
    requires Represents(d, m) && forall i :: 0 <= i < |order| ==> order[i] in d
    requires forall i, j :: 0 <= i < j < |order| ==> order[i] != order[j]
    ensures var items := Listing(d, order, channel); forall i, j :: 0 <= i < j < |items| ==> items[i] != items[j]
  {
    hide ItemOf, Represents, Listed;
    if order != [] {
      var n := |order| - 1;
      var before, last := Listing(d, order[..n], channel), ItemOf(d, order[n]);
      ListingDistinct(d, m, order[..n], channel);
      ListingMembers(d, order[..n], channel, last);
      forall key | key in order[..n] ensures ItemOf(d, key) != last {
        KeysListApart(d, m, key, order[n]);
      }
    }
  }

  lemma KeysListApart(d: Data, m: Model, a: string, b: string)
    requires Represents(d, m) && a in d && b in d && a != b
    ensures ItemOf(d, a) != ItemOf(d, b)
  {
    assert KeyOf(ParseKey(a)) == a && KeyOf(ParseKey(b)) == b;
  }

  /** The keys a removal leaves, in order. */
  function Surviving(order: seq<string>, channel: string, chat: string, topic: Option<string>): seq<string> {
    if order == [] then []
    else
      var n := |order| - 1;
      Surviving(order[..n], channel, chat, topic) + (if Doomed(order[n], channel, chat, topic) then [] else [order[n]])
  }

  lemma SurvivingNone(channel: string, chat: string, topic: Option<string>)
    ensures Surviving([], channel, chat, topic) == []
  {}

  lemma SurvivingNext(order: seq<string>, i: nat, channel: string, chat: string, topic: Option<string>)
    requires i < |order|
    ensures Surviving(order[..i + 1], channel, chat, topic) ==
            Surviving(order[..i], channel, chat, topic)
            + (if Doomed(order[i], channel, chat, topic) then [] else [order[i]])
  {
    assert order[..i + 1][..i] == order[..i];
  }

  lemma {:induction false} SurvivingKeys(order: seq<string>, channel: string, chat: string, topic: Option<string>)
    ensures
      var kept := Surviving(order, channel, chat, topic);
      && (forall key :: key in kept <==> key in order && !Doomed(key, channel, chat, topic))
      && |kept| <= |order|
      && (|kept| < |order| <==> exists key :: key in order && Doomed(key, channel, chat, topic))
  {
    hide Doomed;
    if order != [] {
      var n := |order| - 1;
      SurvivingKeys(order[..n], channel, chat, topic);
      assert order == order[..n] + [order[n]];
    }
  }

  lemma {:induction false} SurvivingDistinct(order: seq<string>, channel: string, chat: string, topic: Option<string>)
    requires forall i, j :: 0 <= i < j < |order| ==> order[i] != order[j]
    ensures
      var kept := Surviving(order, channel, chat, topic);
      forall i, j :: 0 <= i < j < |kept| ==> kept[i] != kept[j]
  {
    hide Doomed;
    if order != [] {
      var n := |order| - 1;
      SurvivingDistinct(order[..n], channel, chat, topic);
      SurvivingKeys(order[..n], channel, chat, topic);
      assert order[n] !in order[..n];
    }
  }

  class ChannelStore {
    var data: Data
    var order: seq<string>  // dictionary keys in insertion order

    ghost predicate Valid()
      reads this
    {
      && (forall i, j :: 0 <= i < j < |order| ==> order[i] != order[j])
      && (forall key :: key in order <==> key in data)
    }

    constructor ()
      ensures Valid() && data == map[]
    {
      data, order := map[], [];
    }

    function GetThreadId(channel: string, chat: string, topic: Option<string>): (thread: Option<string>)
      reads this
    {
      Lookup(data, channel, chat, topic)
    }

    method SetThreadId(channel: string, chat: string, threadId: string, topic: Option<string>,
                       userId: string, now: real)
      requires Valid()
      modifies this
      ensures Valid()
      ensures data == Apply(old(data), Set(channel, chat, topic, threadId, userId, now))
      ensures var key := Key(channel, chat, topic); order == if key in old(data) then old(order) else old(order) + [key]
    {
      var key := Key(channel, chat, topic);
      var createdAt := now;
      if key in data {
        createdAt := data[key].createdAt;
      } else {
        order := order + [key];
      }
      data := data[key := Entry(threadId, userId, createdAt, now)];
    }

    method RemoveMapping(channel: string, chat: string, topic: Option<string>) returns (removed: bool)
      requires Valid()
      modifies this
      ensures Valid()
      ensures data == Apply(old(data), Remove(channel, chat, topic))
      ensures order == Surviving(old(order), channel, chat, topic)
      ensures removed <==> data != old(data)
    {
      hide Doomed, Surviving;
      removed := false;
      var kept, rest := map[], [];
      SurvivingNone(channel, chat, topic);
      for i := 0 to |order|
        invariant data == old(data) && order == old(order)
        invariant rest == Surviving(order[..i], channel, chat, topic) && |rest| <= i && (removed <==> |rest| < i)
        invariant forall key :: key in rest <==> key in kept
        invariant forall key :: key in kept ==> key in data && kept[key] == data[key]
      {
        var key := order[i];
        SurvivingNext(order, i, channel, chat, topic);
        if Doomed(key, channel, chat, topic) {
          removed := true;
        } else {
          kept, rest := kept[key := data[key]], rest + [key];
        }
      }
      assert order[..|order|] == order;
      SurvivingKeys(order, channel, chat, topic);
      SurvivingDistinct(order, channel, chat, topic);
      assert kept == RemoveData(data, channel, chat, topic);
      data, order := kept, rest;
    }

    /** The stored mappings of the channel, or all of them without one, in the order they were first stored. */
    method ListEntries(channel: Option<string>) returns (items: seq<Item>)
      requires Valid()
      ensures items == Listing(data, order, channel)
      ensures forall item :: item in items <==>
        && (channel in {None, Some("")} || Some(item.channel) == channel)
        && exists key :: key in data && item == ItemOf(data, key)
    {
      hide ItemOf;
      items := [];
      for i := 0 to |order|
        invariant items == Listing(data, order[..i], channel)
      {
        assert order[..i + 1][..i] == order[..i];
        var item := ItemOf(data, order[i]);
        if Normal(channel).None? || item.channel == channel.value {
          items := items + [item];
        }
      }
      assert order[..|order|] == order;
      forall item
        ensures item in items <==> Listed(channel, item) && exists key :: key in data && item == ItemOf(data, key)
        ensures Listed(channel, item) <==> channel in {None, Some("")} || Some(item.channel) == channel
      {
        ListingMembers(data, order, channel, item);
      }
    }
  }

  /** Listing shows exactly the conversations of the map, with their original topics, colons included. */
  lemma ListingRefines(d: Data, m: Model, item: Item)
    requires Represents(d, m)
    ensures (exists key :: key in d && item == ItemOf(d, key)) <==>
            Conversation(item.channel, item.chat, item.topic) in m
            && m[Conversation(item.channel, item.chat, item.topic)] == item.entry
  {
    var c := Conversation(item.channel, item.chat, item.topic);
    if c in m {
      CleanRoundTrip(c);
    }
  }
}
