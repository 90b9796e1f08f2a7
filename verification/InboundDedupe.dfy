/** The manager's window of recently seen inbound message keys. */
module InboundDedupe {
  import opened Options

  const TTL_SECONDS: real := 600.0
  const MAX_ENTRIES: nat := 4096

  datatype Entry<K> = Entry(key: K, at: real)

  type Table<K> = seq<Entry<K>>  // insertion order, oldest first

  predicate Expired<K>(e: Entry<K>, now: real) {
    now - e.at > TTL_SECONDS
  }

  predicate Has<K(==)>(t: Table<K>, key: K) {
    exists i :: 0 <= i < |t| && t[i].key == key
  }

  /******* One message *******/

  function DropExpired<K>(t: Table<K>, now: real): Table<K> {
    if t != [] && Expired(t[0], now) then DropExpired(t[1..], now) else t
  }

  function Trim<K>(t: Table<K>): Table<K> {
    if |t| > MAX_ENTRIES then t[|t| - MAX_ENTRIES..] else t
  }

  function Window<K>(t: Table<K>, now: real): Table<K> {
    Trim(DropExpired(t, now))
  }

  datatype Op<K> = Receive(key: K, now: real) | Release(key: K)

  function Without<K(==)>(t: Table<K>, key: K): Table<K> {
    if t == [] then []
    else (if t[0].key == key then [] else [t[0]]) + Without(t[1..], key)
  }

  function Step<K(==)>(t: Table<K>, op: Op<K>): Table<K> {
    match op
    case Receive(key, now) =>
      var w := Window(t, now);
      if Has(w, key) then w else w + [Entry(key, now)]
    case Release(key) => Without(t, key)
  }

  function Run<K(==)>(ops: seq<Op<K>>): Table<K> {
    if ops == [] then [] else Step(Run(ops[..|ops| - 1]), ops[|ops| - 1])
  }

  /** The k-th operation is a message that is not treated as a duplicate. */
  predicate Accepted<K(==)>(ops: seq<Op<K>>, k: nat)
    requires k < |ops|
  {
    ops[k].Receive? && !Has(Window(Run(ops[..k]), ops[k].now), ops[k].key)
  }

  /** The monotonic clock. */
  predicate Monotone<K>(ops: seq<Op<K>>) {
    forall i, j :: 0 <= i < j < |ops| && ops[i].Receive? && ops[j].Receive? ==> ops[i].now <= ops[j].now
  }

  /******* The table over a whole run *******/

  predicate InOrder<K(==)>(t: Table<K>) {
    forall i, j :: 0 <= i < j < |t| ==> t[i].at <= t[j].at && t[i].key != t[j].key
  }

  lemma {:induction false} DropExpiredIsSuffix<K>(t: Table<K>, now: real)
    ensures
      var d := |t| - |DropExpired(t, now)|;
      && 0 <= d && DropExpired(t, now) == t[d..]
      && (forall i :: 0 <= i < d ==> Expired(t[i], now))
      && (d < |t| ==> !Expired(t[d], now))
  {
    if t != [] && Expired(t[0], now) {
      DropExpiredIsSuffix(t[1..], now);
      var d := |t| - |DropExpired(t, now)|;
      assert t[1..][d - 1..] == t[d..];
      forall i | 0 <= i < d ensures Expired(t[i], now) {
        if i > 0 { assert t[i] == t[1..][i - 1]; }
      }
      if d < |t| { assert t[d] == t[1..][d - 1]; }
    }
  }

  /** All entries that have not expired, in order. */
  function Unexpired<K>(t: Table<K>, now: real): Table<K> {
    if t == [] then [] else (if Expired(t[0], now) then [] else [t[0]]) + Unexpired(t[1..], now)
  }

  lemma {:induction false} NothingExpired<K>(t: Table<K>, now: real)
    requires forall i :: 0 <= i < |t| ==> !Expired(t[i], now)
    ensures Unexpired(t, now) == t
  {
    if t != [] { NothingExpired(t[1..], now); }
  }

  /** Evicting from the front only is the same as filtering the whole table. */
  lemma {:induction false} FrontEvictionIsFilter<K>(t: Table<K>, now: real)
    requires InOrder(t)
    ensures DropExpired(t, now) == Unexpired(t, now)
    ensures forall e :: e in DropExpired(t, now) <==> e in t && !Expired(e, now)
  {
    if t != [] {
      assert t == [t[0]] + t[1..];
      if Expired(t[0], now) {
        FrontEvictionIsFilter(t[1..], now);
      } else {
        NothingExpired(t, now);
      }
    }
  }

  lemma {:induction false} WithoutKeeps<K>(t: Table<K>, key: K)
    ensures |Without(t, key)| <= |t| && !Has(Without(t, key), key)
    ensures forall i :: 0 <= i < |Without(t, key)| ==> Without(t, key)[i] in t
    ensures forall e :: e in t && e.key != key ==> e in Without(t, key)
  {
    if t != [] {
      WithoutKeeps(t[1..], key);
      assert t == [t[0]] + t[1..];
      var rest := Without(t[1..], key);
      forall i | 0 <= i < |rest| ensures rest[i] in t[1..] {}
    }
  }

  lemma {:induction false} WithoutInOrder<K>(t: Table<K>, key: K)
    requires InOrder(t)
    ensures InOrder(Without(t, key))
  {
    if t != [] {
      var rest := Without(t[1..], key);
      assert Without(t, key) == if t[0].key == key then rest else [t[0]] + rest;
      hide Without, InOrder;
      HeadIsFirst(t);
      WithoutInOrder(t[1..], key);
      WithoutKeeps(t[1..], key);
      ConsInOrder(t[0], rest);
    }
  }

  lemma HeadIsFirst<K>(t: Table<K>)
    requires t != [] && InOrder(t)
    ensures InOrder(t[1..]) && forall e :: e in t[1..] ==> t[0].at <= e.at && t[0].key != e.key
  {
    forall e | e in t[1..] ensures t[0].at <= e.at && t[0].key != e.key {
      var j :| 0 <= j < |t[1..]| && t[1..][j] == e;
      assert t[j + 1] == e;
    }
  }

  lemma ConsInOrder<K>(e: Entry<K>, t: Table<K>)
    requires InOrder(t) && forall i :: 0 <= i < |t| ==> e.at <= t[i].at && e.key != t[i].key
    ensures InOrder([e] + t)
  {
    var all := [e] + t;
    forall i, j | 0 <= i < j < |all| ensures all[i].at <= all[j].at && all[i].key != all[j].key {
      assert all[j] == t[j - 1];
      if i > 0 { assert all[i] == t[i - 1]; }
    }
  }

  /** Eviction keeps a suffix of the table, of at most MAX entries. */
  lemma WindowIsSuffix<K>(t: Table<K>, now: real)
    ensures
      var d := |t| - |Window(t, now)|;
      && 0 <= d && Window(t, now) == t[d..] && |Window(t, now)| <= MAX_ENTRIES
      && (forall i :: |t| - MAX_ENTRIES <= i < |t| && 0 <= i < d ==> Expired(t[i], now))
  {
    DropExpiredIsSuffix(t, now);
    var kept := DropExpired(t, now);
    if |kept| > MAX_ENTRIES {
      assert kept[|kept| - MAX_ENTRIES..] == t[|t| - MAX_ENTRIES..];
    }
  }

  lemma AppendInOrder<K>(t: Table<K>, d: nat, key: K, now: real)
    requires InOrder(t) && d <= |t| && !Has(t[d..], key)
    requires forall i :: 0 <= i < |t| ==> t[i].at <= now
    ensures InOrder(t[d..]) && InOrder(t[d..] + [Entry(key, now)])
  {
  }

  lemma ReceiveKeeps<K>(t: Table<K>, key: K, now: real)
    requires InOrder(t) && forall i :: 0 <= i < |t| ==> t[i].at <= now
    ensures
      var after := Step(t, Receive(key, now));
      InOrder(after) && |after| <= MAX_ENTRIES + 1 && forall e :: e in after ==> e in t || e == Entry(key, now)
  {
    hide Window;
    WindowIsSuffix(t, now);
    var w := Window(t, now);
    if Has(w, key) {
      assert InOrder(t[|t| - |w|..]);
    } else {
      AppendInOrder(t, |t| - |w|, key, now);
    }
  }

  /** What every run keeps: time order, distinct keys, at most MAX + 1 entries, each from a received message. */
  lemma {:induction false} RunKeeps<K>(ops: seq<Op<K>>)
    requires Monotone(ops)
    ensures InOrder(Run(ops)) && |Run(ops)| <= 4097
    ensures forall e :: e in Run(ops) ==> Receive(e.key, e.at) in ops
  {
    if ops != [] {
      var n := |ops| - 1;
      var t := Run(ops[..n]);
      RunKeeps(ops[..n]);
      hide Window, Without, InOrder, Has;
      forall e | e in ops[..n] ensures e in ops {}
      if ops[n].Receive? {
        forall i | 0 <= i < |t| ensures t[i].at <= ops[n].now { assert t[i] in t; }
        ReceiveKeeps(t, ops[n].key, ops[n].now);
      } else {
        WithoutKeeps(t, ops[n].key);
        WithoutInOrder(t, ops[n].key);
      }
    }
  }

  /******* Accepting a key twice *******/

  /** Messages with other keys accepted among the operations lo..hi. */
  function OthersAccepted<K(==)>(ops: seq<Op<K>>, lo: nat, hi: nat, key: K): nat
    requires lo <= hi <= |ops|
    decreases hi
  {
    if lo == hi then 0
    else OthersAccepted(ops, lo, hi - 1, key) + (if Accepted(ops, hi - 1) && ops[hi - 1].key != key then 1 else 0)
  }

  /** The entry is in the table with at most `behind` entries after it. */
  predicate Near<K(==)>(t: Table<K>, e: Entry<K>, behind: int) {
    exists p :: 0 <= p < |t| && t[p] == e && |t| - 1 - p <= behind
  }

  lemma WindowKeepsNear<K>(t: Table<K>, now: real, e: Entry<K>, behind: int)
    requires Near(t, e, behind) && behind < MAX_ENTRIES && !Expired(e, now)
    ensures Near(Window(t, now), e, behind)
  {
    WindowIsSuffix(t, now);
    var d := |t| - |Window(t, now)|;
    var p :| 0 <= p < |t| && t[p] == e && |t| - 1 - p <= behind;
    assert Window(t, now)[p - d] == e;
  }

  lemma {:induction false} WithoutKeepsNear<K>(t: Table<K>, key: K, e: Entry<K>, behind: int)
    requires Near(t, e, behind) && e.key != key
    ensures Near(Without(t, key), e, behind)
  {
    var p :| 0 <= p < |t| && t[p] == e && |t| - 1 - p <= behind;
    WithoutKeeps(t[1..], key);
    var rest := Without(t[1..], key);
    if p == 0 {
      assert Without(t, key)[0] == e;
    } else {
      assert t[1..][p - 1] == e;
      WithoutKeepsNear(t[1..], key, e, behind);
      var q :| 0 <= q < |rest| && rest[q] == e && |rest| - 1 - q <= behind;
      var k := |Without(t, key)| - |rest|;
      assert Without(t, key)[q + k] == e;
    }
  }

  /** One operation moves an entry that is neither released nor expired at most one place from the end. */
  lemma StepKeepsNear<K>(t: Table<K>, op: Op<K>, e: Entry<K>, behind: int)
    requires Near(t, e, behind) && behind < MAX_ENTRIES
    requires op.Receive? ==> !Expired(e, op.now)
    requires op.Release? ==> op.key != e.key
    ensures op.Receive? ==> Has(Window(t, op.now), e.key)
    ensures
      var accepted := op.Receive? && !Has(Window(t, op.now), op.key);
      Near(Step(t, op), e, behind + if accepted then 1 else 0)
  {
    if op.Receive? {
      WindowKeepsNear(t, op.now, e, behind);
      var w := Window(t, op.now);
      var p :| 0 <= p < |w| && w[p] == e && |w| - 1 - p <= behind;
      if !Has(w, op.key) { assert (w + [Entry(op.key, op.now)])[p] == e; }
    } else {
      WithoutKeepsNear(t, op.key, e, behind);
    }
  }

  lemma AppendedIsNear<K>(t: Table<K>, op: Op<K>)
    requires op.Receive? && !Has(Window(t, op.now), op.key)
    ensures Near(Step(t, op), Entry(op.key, op.now), 0)
  {
    var after := Step(t, op);
    assert after[|after| - 1] == Entry(op.key, op.now);
  }

  lemma {:induction false} StaysNear<K>(ops: seq<Op<K>>, i: nat, m: nat)
    requires i < m <= |ops| && Accepted(ops, i)
    requires forall k :: i < k < m ==> ops[k] != Release(ops[i].key)
    requires forall k :: i < k < m && ops[k].Receive? ==> ops[k].now - ops[i].now <= TTL_SECONDS
    requires OthersAccepted(ops, i + 1, m, ops[i].key) < MAX_ENTRIES
    ensures Near(Run(ops[..m]), Entry(ops[i].key, ops[i].now), OthersAccepted(ops, i + 1, m, ops[i].key))
    decreases m
  {
    hide Step, Window, Near;
    var e := Entry(ops[i].key, ops[i].now);
    assert ops[..m][..m - 1] == ops[..m - 1];
    if m == i + 1 {
      AppendedIsNear(Run(ops[..i]), ops[i]);
    } else {
      var behind := OthersAccepted(ops, i + 1, m - 1, e.key);
      StaysNear(ops, i, m - 1);
      StepKeepsNear(Run(ops[..m - 1]), ops[m - 1], e, behind);
    }
  }

  /**
   Over every run: a key accepted twice was released in between, or more than the TTL passed, or at least
   MAX messages with other keys were accepted in between.
   */
  lemma AcceptedTwice<K>(ops: seq<Op<K>>, i: nat, j: nat)
    requires Monotone(ops) && i < j < |ops|
    requires Accepted(ops, i) && Accepted(ops, j) && ops[i].key == ops[j].key
    ensures
      || (exists k :: i < k < j && ops[k] == Release(ops[i].key))
      || ops[j].now - ops[i].now > 600.0
      || OthersAccepted(ops, i + 1, j, ops[i].key) >= 4096
  {
    if (forall k :: i < k < j ==> ops[k] != Release(ops[i].key)) && ops[j].now - ops[i].now <= TTL_SECONDS
       && OthersAccepted(ops, i + 1, j, ops[i].key) < MAX_ENTRIES {
      StaysNear(ops, i, j);
      StepKeepsNear(Run(ops[..j]), ops[j], Entry(ops[i].key, ops[i].now), OthersAccepted(ops, i + 1, j, ops[i].key));
      assert false;
    }
  }

  /** Message `i` was accepted, and its key has not been released by operation `hi`. */
  predicate Stands<K(==)>(ops: seq<Op<K>>, i: nat, hi: nat, key: K)
    requires i < hi <= |ops|
  {
    Accepted(ops, i) && ops[i].key == key && forall k :: i < k < hi ==> ops[k] != Release(key)
  }

  lemma {:induction false} EntryWasAccepted<K>(ops: seq<Op<K>>, n: nat, e: Entry<K>)
    requires n <= |ops| && e in Run(ops[..n])
    ensures exists i :: 0 <= i < n && Stands(ops, i, n, e.key) && ops[i].now == e.at
    decreases n
  {
    assert n > 0;
    hide Window, Without, Run, Step, Has, Accepted, Stands;
    RunNext(ops, n - 1);
    StepKeepsOrAdds(Run(ops[..n - 1]), ops[n - 1], e);
    if ops[n - 1] == Receive(e.key, e.at) && !Has(Window(Run(ops[..n - 1]), e.at), e.key) {
      NewStands(ops, n, e);
    } else {
      EntryWasAccepted(ops, n - 1, e);
      var i :| 0 <= i < n - 1 && Stands(ops, i, n - 1, e.key) && ops[i].now == e.at;
      StillStands(ops, i, n, e.key);
    }
  }

  lemma NewStands<K>(ops: seq<Op<K>>, n: nat, e: Entry<K>)
    requires 0 < n <= |ops| && ops[n - 1] == Receive(e.key, e.at) && !Has(Window(Run(ops[..n - 1]), e.at), e.key)
    ensures Stands(ops, n - 1, n, e.key) && ops[n - 1].now == e.at
  {
  }

  lemma StillStands<K>(ops: seq<Op<K>>, i: nat, n: nat, key: K)
    requires i < n - 1 < |ops| && Stands(ops, i, n - 1, key) && ops[n - 1] != Release(key)
    ensures Stands(ops, i, n, key)
  {
  }

  lemma RunNext<K>(ops: seq<Op<K>>, n: nat)
    requires n < |ops|
    ensures Run(ops[..n + 1]) == Step(Run(ops[..n]), ops[n])
  {
    assert ops[..n + 1][..n] == ops[..n];
  }

  lemma StepKeepsOrAdds<K>(t: Table<K>, op: Op<K>, e: Entry<K>)
    requires e in Step(t, op)
    ensures (e in t && op != Release(e.key)) || (op == Receive(e.key, e.at) && !Has(Window(t, op.now), e.key))
  {
    match op {
      case Receive(key, now) => WindowIsSuffix(t, now);
      case Release(key) => WithoutKeeps(t, key);
    }
  }

  /** Over every run: a message is dropped only for one with its key, accepted at most ten minutes before it and
      not released since. */
  lemma DuplicateHasCause<K>(ops: seq<Op<K>>, j: nat)
    requires Monotone(ops) && j < |ops| && ops[j].Receive? && !Accepted(ops, j)
    ensures exists i :: 0 <= i < j && Stands(ops, i, j, ops[j].key) && ops[j].now - ops[i].now <= 600.0
  {
    var t := Run(ops[..j]);
    RunKeeps(ops[..j]);
    WindowIsSuffix(t, ops[j].now);
    var w := Window(t, ops[j].now);
    var p :| 0 <= p < |w| && w[p].key == ops[j].key;
    assert w[p] in DropExpired(t, ops[j].now);
    FrontEvictionIsFilter(t, ops[j].now);
    EntryWasAccepted(ops, j, w[p]);
  }

  /** Conversely, release and expiry do make a key acceptable again. */
  lemma ReleasedIsAccepted<K>(t: Table<K>, key: K, now: real)
    ensures !Has(Window(Without(t, key), now), key)
  {
    WithoutKeeps(t, key);
    WindowIsSuffix(Without(t, key), now);
  }

  lemma ExpiredIsAccepted<K>(t: Table<K>, key: K, now: real)
    requires InOrder(t)
    requires forall i :: 0 <= i < |t| && t[i].key == key ==> Expired(t[i], now)
    ensures !Has(Window(t, now), key)
  {
    var kept := DropExpired(t, now);
    FrontEvictionIsFilter(t, now);
    forall i | 0 <= i < |kept| ensures kept[i].key != key { assert kept[i] in kept; }
    assert forall i :: 0 <= i < |Window(t, now)| ==> Window(t, now)[i] in kept;
  }

  /** The bound MAX + 1 is reached: distinct keys fill the table one past its nominal size. */
  function Distinct(n: nat): (ops: seq<Op<nat>>)
    ensures |ops| == n
  {
    seq(n, i requires 0 <= i < n => Receive(i, 0.0))
  }

  lemma {:induction false} TableOverfills(n: nat)
    requires n <= MAX_ENTRIES + 1
    ensures Run(Distinct(n)) == seq(n, i requires 0 <= i < n => Entry(i, 0.0))
  {
    if n > 0 {
      assert Distinct(n)[..n - 1] == Distinct(n - 1);
      TableOverfills(n - 1);
      var t := Run(Distinct(n - 1));
      assert Window(t, 0.0) == t;
    } else {
      assert Distinct(0) == [];
    }
  }

  /******* The manager's table *******/

  class RecentEvents<K(==)> {
    var table: Table<K>

    constructor ()
      ensures table == []
    {
      table := [];
    }

    method IsDuplicateInbound(key: Option<K>, now: real) returns (duplicate: bool)
      modifies this
      ensures key.None? ==> !duplicate && table == old(table)
      ensures key.Some? ==> table == Step(old(table), Receive(key.value, now))
      ensures key.Some? ==> (duplicate <==> Has(Window(old(table), now), key.value))
    {
      if key.None? { return false; }
      while table != [] && now - table[0].at > TTL_SECONDS
        invariant DropExpired(table, now) == DropExpired(old(table), now)
        decreases table
      {
        table := table[1..];
      }
      while |table| > MAX_ENTRIES
        invariant Trim(table) == Window(old(table), now)
      {
        assert table[1..][|table| - 1 - MAX_ENTRIES..] == table[|table| - MAX_ENTRIES..];
        table := table[1..];
      }
      duplicate := exists i :: 0 <= i < |table| && table[i].key == key.value;
      if !duplicate {
        table := table + [Entry(key.value, now)];
      }
    }

    method ReleaseInboundDedupeKey(key: Option<K>)
      modifies this
      ensures table == if key.None? then old(table) else Step(old(table), Release(key.value))
    {
      if key.Some? {
        table := Without(table, key.value);
      }
    }
  }
}
