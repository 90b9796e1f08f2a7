/**
 A drain pass of the outbox worker: what it does to the tables for every outcome of its calls, that it is a
 run of the protocol, and what passes without failing calls achieve.
 */
module OutboxPass {
  import opened Options
  import opened OrderedSelect
  import opened AuditOutbox

  /******* One drain pass *******/

  function EligibleRows(db: Db, now: int): set<RowId> {
    set r | r in db.rows && Eligible(db.rows[r], now)
  }

  function Availability(db: Db, now: int): map<RowId, int> {
    map r | r in db.rows && Eligible(db.rows[r], now) :: db.rows[r].availableAt
  }

  /** An uncontended claim: the first `batch` claimable rows, by availability, then by id. */
  predicate FirstClaimable(db: Db, ids: seq<RowId>, batch: int, now: int) {
    FirstInOrder(Availability(db, now), ids, batch)
  }

  lemma FirstClaimableIsClaimable(db: Db, ids: seq<RowId>, batch: int, now: int)
    requires FirstClaimable(db, ids, batch, now)
    ensures Claimable(db, ids, batch, now)
  {
  }

  /** Row `r` comes before row `q`: available earlier, or at the same time and with the smaller id. */
  predicate ComesBefore(db: Db, r: RowId, q: RowId)
    requires r in db.rows && q in db.rows
  {
    db.rows[r].availableAt < db.rows[q].availableAt || (db.rows[r].availableAt == db.rows[q].availableAt && r < q)
  }

  /** A claim takes the longest available rows first; what it leaves behind comes after everything it takes. */
  lemma OldestAreClaimed(db: Db, ids: seq<RowId>, batch: int, now: int)
    requires FirstClaimable(db, ids, batch, now)
    ensures forall i :: 0 <= i < |ids| ==> ids[i] in db.rows
    ensures forall i, j :: 0 <= i < j < |ids| ==> ComesBefore(db, ids[i], ids[j])
    ensures forall i, r :: 0 <= i < |ids| && r in db.rows && Eligible(db.rows[r], now) && r !in ids ==>
      ComesBefore(db, ids[i], r)
  {
    forall i | 0 <= i < |ids| ensures ids[i] in db.rows { assert ids[i] in Availability(db, now); }
    forall i, j | 0 <= i < j < |ids| ensures ComesBefore(db, ids[i], ids[j]) {
      assert Earlier(Availability(db, now), ids[i], ids[j]);
    }
    forall i, r | 0 <= i < |ids| && r in db.rows && Eligible(db.rows[r], now) && r !in ids
      ensures ComesBefore(db, ids[i], r)
    {
      assert r in Availability(db, now);
      assert Earlier(Availability(db, now), ids[i], r);
    }
  }

  /** The effect of one claimed row when every call returns. */
  function Settle(db: Db, r: RowId, now: int): Db
    requires r in db.rows
  {
    match db.rows[r].payload
    case None => UpdateRow(db, r, FailedRow(db.rows[r], now))
    case Some(e) =>
      UpdateRow(if Logged(db, e.id) then db else db.(log := db.log + [e]), r, PublishedRow(db.rows[r], now))
  }

  function SettleAll(db: Db, ids: seq<RowId>, now: int): (after: Db)
    requires forall i :: 0 <= i < |ids| ==> ids[i] in db.rows
    ensures after.rows.Keys == db.rows.Keys
  {
    if ids == [] then db
    else Settle(SettleAll(db, ids[..|ids| - 1], now), ids[|ids| - 1], now)
  }

  function CountDecodable(db: Db, ids: seq<RowId>): nat
    requires forall i :: 0 <= i < |ids| ==> ids[i] in db.rows
  {
    if ids == [] then 0
    else CountDecodable(db, ids[..|ids| - 1]) + (if db.rows[ids[|ids| - 1]].payload.Some? then 1 else 0)
  }

  lemma SettleKeeps(db: Db, r: RowId, now: int)
    requires DbOk(db) && r in db.rows
    ensures DbOk(Settle(db, r, now)) && Extends(db, Settle(db, r, now))
    ensures db.rows[r].payload.Some? ==> Delivered(Settle(db, r, now), r)
  {
    var after := Settle(db, r, now);
    if db.rows[r].payload.Some? {
      var e := db.rows[r].payload.value;
      var logged := if Logged(db, e.id) then db else db.(log := db.log + [e]);
      if Logged(db, e.id) { DuplicateKeyMeansDelivered(db, r); } else { AppendKeeps(db, r, logged); }
      hide RowsOk, LogOk, PublishedOk, BudgetOk;
      ExtendsItself(db);
      UpdateRowKeeps(logged, r, PublishedRow(logged.rows[r], now));
      ExtendsTransitive(db, logged, after);
    } else {
      hide RowsOk, LogOk, PublishedOk, BudgetOk, Backoff;
      UpdateRowKeeps(db, r, FailedRow(db.rows[r], now));
    }
  }

  lemma {:induction false} SettleAllKeeps(db: Db, ids: seq<RowId>, now: int)
    requires DbOk(db)
    requires forall i :: 0 <= i < |ids| ==> ids[i] in db.rows
    ensures DbOk(SettleAll(db, ids, now)) && Extends(db, SettleAll(db, ids, now))
  {
    if ids != [] {
      SettleAllKeeps(db, ids[..|ids| - 1], now);
      SettleKeeps(SettleAll(db, ids[..|ids| - 1], now), ids[|ids| - 1], now);
    }
  }

  function SettledRow(row: Row, now: int): Row {
    if row.payload.Some? then PublishedRow(row, now) else FailedRow(row, now)
  }

  /** Settling distinct rows: each one is settled from the state it was claimed in, the others are untouched. */
  lemma {:induction false} SettleAllRows(db: Db, ids: seq<RowId>, now: int)
    requires forall i :: 0 <= i < |ids| ==> ids[i] in db.rows
    requires forall i, j :: 0 <= i < j < |ids| ==> ids[i] != ids[j]
    ensures forall r :: r in db.rows ==>
      SettleAll(db, ids, now).rows[r] == if r in ids then SettledRow(db.rows[r], now) else db.rows[r]
  {
    if ids != [] {
      var n := |ids| - 1;
      SettleAllRows(db, ids[..n], now);
      assert ids[n] !in ids[..n];
      assert ids == ids[..n] + [ids[n]];
    }
  }

  /** The only new log entries are events of the settled rows. */
  lemma {:induction false} SettleAllLog(db: Db, ids: seq<RowId>, now: int, i: nat)
    requires forall i :: 0 <= i < |ids| ==> ids[i] in db.rows
    requires i < |SettleAll(db, ids, now).log|
    ensures forall r :: r in db.rows ==> SettleAll(db, ids, now).rows[r].payload == db.rows[r].payload
    ensures SettleAll(db, ids, now).log[i] in db.log
            || exists k :: 0 <= k < |ids| && db.rows[ids[k]].payload == Some(SettleAll(db, ids, now).log[i])
  {
    if ids != [] {
      var n := |ids| - 1;
      var before := SettleAll(db, ids[..n], now);
      if before.log != [] {
        SettleAllLog(db, ids[..n], now, if i < |before.log| then i else 0);
      } else {
        SettleAllPayloads(db, ids[..n], now);
      }
      if i == |before.log| { assert db.rows[ids[n]].payload == Some(SettleAll(db, ids, now).log[i]); }
    }
  }

  lemma {:induction false} SettleAllPayloads(db: Db, ids: seq<RowId>, now: int)
    requires forall i :: 0 <= i < |ids| ==> ids[i] in db.rows
    ensures forall r :: r in db.rows ==> SettleAll(db, ids, now).rows[r].payload == db.rows[r].payload
  {
    if ids != [] { SettleAllPayloads(db, ids[..|ids| - 1], now); }
  }

  /** The tables after one pass in which every call returns and no other worker interferes. */
  function CleanPass(db: Db, ids: seq<RowId>, w: WorkerId, now: int): (after: Db)
    requires forall i :: 0 <= i < |ids| ==> ids[i] in db.rows
    ensures after.rows.Keys == db.rows.Keys
  {
    SettleAll(ClaimRows(ReleaseStale(db, now), ids, w, now), ids, now)
  }

  /**
   Convergence: from any database a run can reach, crashes included, one clean pass publishes and delivers
   every claimed row that decodes, fails every other one, touches nothing else, and shrinks the set of
   claimable rows by exactly the claimed ones.
   */
  lemma Convergence(db: Db, ids: seq<RowId>, w: WorkerId, now: int, batch: int)
    requires DbOk(db) && FirstClaimable(ReleaseStale(db, now), ids, batch, now)
    ensures
      var released := ReleaseStale(db, now);
      var after := CleanPass(db, ids, w, now);
      && (forall i :: 0 <= i < |ids| && db.rows[ids[i]].payload.Some? ==>
            after.rows[ids[i]].status == Published && Delivered(after, ids[i]))
      && (forall i :: 0 <= i < |ids| && db.rows[ids[i]].payload.None? ==>
            after.rows[ids[i]] == FailedRow(released.rows[ids[i]], now))
      && (forall r :: r in db.rows && r !in ids ==> after.rows[r] == released.rows[r])
      && EligibleRows(after, now) == EligibleRows(released, now) - (set r | r in ids)
  {
    hide FirstClaimable, CleanPass, DbOk;
    FirstClaimableIsClaimable(ReleaseStale(db, now), ids, batch, now);
    CleanPassRows(db, ids, w, now, batch);
    CleanPassDelivers(db, ids, w, now, batch);
  }

  lemma CleanPassDelivers(db: Db, ids: seq<RowId>, w: WorkerId, now: int, batch: int)
    requires DbOk(db) && Claimable(ReleaseStale(db, now), ids, batch, now)
    ensures
      var after := CleanPass(db, ids, w, now);
      forall r :: r in after.rows && after.rows[r].status == Published ==> Delivered(after, r)
  {
    CleanPassKeeps(db, ids, w, now, batch);
  }

  lemma ExtendsTransitive(a: Db, b: Db, c: Db)
    requires Extends(a, b) && Extends(b, c)
    ensures Extends(a, c)
  {
  }

  lemma CleanPassKeeps(db: Db, ids: seq<RowId>, w: WorkerId, now: int, batch: int)
    requires DbOk(db) && Claimable(ReleaseStale(db, now), ids, batch, now)
    ensures DbOk(CleanPass(db, ids, w, now)) && Extends(db, CleanPass(db, ids, w, now))
  {
    var released := ReleaseStale(db, now);
    var claimed := ClaimRows(released, ids, w, now);
    ReleaseStaleKeeps(db, now);
    ClaimRowsKeeps(released, ids, w, now, batch);
    SettleAllKeeps(claimed, ids, now);
    ExtendsTransitive(db, released, claimed);
    ExtendsTransitive(db, claimed, SettleAll(claimed, ids, now));
  }

  lemma CleanPassRows(db: Db, ids: seq<RowId>, w: WorkerId, now: int, batch: int)
    requires Claimable(ReleaseStale(db, now), ids, batch, now)
    ensures
      var released := ReleaseStale(db, now);
      var after := CleanPass(db, ids, w, now);
      && (forall i :: 0 <= i < |ids| ==>
            && after.rows[ids[i]] == SettledRow(released.rows[ids[i]], now).(owner := None, updatedAt := now)
            && !Eligible(after.rows[ids[i]], now))
      && (forall r :: r in db.rows && r !in ids ==> after.rows[r] == released.rows[r])
      && EligibleRows(after, now) == EligibleRows(released, now) - (set r | r in ids)
  {
    hide SettleAll, Backoff;
    hide Eligible, SettledRow, ReleasedRow;
    var released := ReleaseStale(db, now);
    var claimed := ClaimRows(released, ids, w, now);
    var after := CleanPass(db, ids, w, now);
    SettleAllRows(claimed, ids, now);
    forall r | r in ids
      ensures r in after.rows && !Eligible(after.rows[r], now)
      ensures after.rows[r] == SettledRow(released.rows[r], now).(owner := None, updatedAt := now)
    {
      ClaimedSettles(released.rows[r], w, now);
    }
  }

  lemma ClaimedSettles(row: Row, w: WorkerId, now: int)
    ensures
      var settled := SettledRow(row.(status := Processing, owner := Some(w), updatedAt := now), now);
      settled == SettledRow(row, now).(owner := None, updatedAt := now) && !Eligible(settled, now)
  {
    hide Backoff;
    BackoffBounds(row.attempts + 1);
  }

  lemma {:induction false} RunConcat(s: System, a: seq<Action>, b: seq<Action>)
    ensures Run(s, a + b) == Run(Run(s, a), b)
  {
    hide Apply;
    if b == [] {
      assert a + b == a;
    } else {
      var n := |b| - 1;
      RunConcat(s, a, b[..n]);
      assert a + b == (a + b[..n]) + [b[n]];
      RunSnoc(s, a + b[..n], b[n]);
    }
  }

  lemma WorkerSteps(s: System, w: WorkerId, outcome: Outcome)
    ensures Apply(s, Insert(w, outcome)) == ApplyInsert(s, w, outcome)
    ensures Apply(s, MarkPublished(w, outcome)) == ApplyMarkPublished(s, w, outcome)
    ensures Apply(s, MarkFailed(w, outcome)) == ApplyMarkFailed(s, w, outcome)
  {
  }

  /** What one claimed row leads to, for every outcome of its insert, published mark and failed mark. */
  datatype RowResult = RowResult(db: Db, published: bool, raised: bool)

  function RecordFailed(db: Db, r: RowId, now: int, outcome: Outcome): Db
    requires r in db.rows
  {
    if outcome == Lost then db else UpdateRow(db, r, FailedRow(db.rows[r], now))
  }

  function RecordPublished(db: Db, r: RowId, now: int, outcome: Outcome): (after: Db)
    requires r in db.rows
    ensures r in after.rows
  {
    if outcome == Lost then db else UpdateRow(db, r, PublishedRow(db.rows[r], now))
  }

  function Attempt(db: Db, r: RowId, now: int, insert: Outcome, mark: Outcome, fail: Outcome): RowResult
    requires r in db.rows
  {
    var payload := db.rows[r].payload;
    if payload.None? || insert == Lost then RowResult(RecordFailed(db, r, now, fail), false, false)
    else if Logged(db, payload.value.id) then
      RowResult(RecordPublished(db, r, now, mark), mark == Returns, mark != Returns)
    else
      var logged := db.(log := db.log + [payload.value]);
      if insert != Returns then RowResult(RecordFailed(logged, r, now, fail), false, false)
      else if mark == Returns then RowResult(RecordPublished(logged, r, now, mark), true, false)
      else RowResult(RecordFailed(RecordPublished(logged, r, now, mark), r, now, fail), false, false)
  }

  function AttemptTrace(db: Db, r: RowId, w: WorkerId, insert: Outcome, mark: Outcome, fail: Outcome): seq<Action>
    requires r in db.rows
  {
    var row := db.rows[r];
    if row.payload.None? || insert == Lost then [Insert(w, insert), MarkFailed(w, fail)]
    else if Logged(db, row.payload.value.id) then [Insert(w, insert), MarkPublished(w, mark)]
    else if insert != Returns then [Insert(w, insert), MarkFailed(w, fail)]
    else if mark == Returns then [Insert(w, insert), MarkPublished(w, mark)]
    else [Insert(w, insert), MarkPublished(w, mark), MarkFailed(w, fail)]
  }

  /** The worker after the row: gone if the pass was aborted, else at the next row. */
  function AfterAttempt(worker: Worker, result: RowResult): Worker {
    if result.raised then worker.(pc := Idle)
    else NextRow(worker).(published := worker.published + (if result.published then 1 else 0))
  }

  lemma RunTwo(s: System, a: Action, b: Action)
    ensures Run(s, [a, b]) == Apply(Apply(s, a), b)
  {
    hide Apply;
    RunSnoc(s, [], a);
    RunSnoc(s, [a], b);
    assert [a, b] == [a] + [b] && [a] == [] + [a];
  }

  lemma RunThree(s: System, a: Action, b: Action, c: Action)
    ensures Run(s, [a, b, c]) == Apply(Apply(Apply(s, a), b), c)
  {
    hide Apply;
    RunTwo(s, a, b);
    RunSnoc(s, [a, b], c);
    assert [a, b, c] == [a, b] + [c];
  }

  predicate AtRow(s: System, w: WorkerId, r: RowId) {
    && w in s.workers && s.workers[w].pc == AtInsert
    && s.workers[w].queue != [] && s.workers[w].queue[0] == r && r in s.db.rows
  }

  predicate RunsAsAttempt(s: System, w: WorkerId, r: RowId, insert: Outcome, mark: Outcome, fail: Outcome)
    requires AtRow(s, w, r)
  {
    var result := Attempt(s.db, r, s.workers[w].now, insert, mark, fail);
    Run(s, AttemptTrace(s.db, r, w, insert, mark, fail)) ==
    System(result.db, s.workers[w := AfterAttempt(s.workers[w], result)])
  }

  lemma InsertFailsRuns(s: System, w: WorkerId, r: RowId, insert: Outcome, mark: Outcome, fail: Outcome)
    requires AtRow(s, w, r) && ApplyInsert(s, w, insert).workers[w].pc == AtMarkFailed
    ensures RunsAsAttempt(s, w, r, insert, mark, fail)
  {
    hide Apply;
    RunTwo(s, Insert(w, insert), MarkFailed(w, fail));
    WorkerSteps(s, w, insert);
    WorkerSteps(ApplyInsert(s, w, insert), w, fail);
  }

  lemma InsertPublishesRuns(s: System, w: WorkerId, r: RowId, insert: Outcome, mark: Outcome, fail: Outcome)
    requires AtRow(s, w, r) && ApplyInsert(s, w, insert).workers[w].pc.AtMarkPublished?
    requires mark == Returns || ApplyInsert(s, w, insert).workers[w].pc.duplicate
    ensures RunsAsAttempt(s, w, r, insert, mark, fail)
  {
    hide Apply;
    RunTwo(s, Insert(w, insert), MarkPublished(w, mark));
    WorkerSteps(s, w, insert);
    WorkerSteps(ApplyInsert(s, w, insert), w, mark);
  }

  lemma MarkFailsRuns(s: System, w: WorkerId, r: RowId, insert: Outcome, mark: Outcome, fail: Outcome)
    requires AtRow(s, w, r) && ApplyInsert(s, w, insert).workers[w].pc.AtMarkPublished?
    requires mark != Returns && !ApplyInsert(s, w, insert).workers[w].pc.duplicate
    ensures RunsAsAttempt(s, w, r, insert, mark, fail)
  {
    hide Apply, Run, RecordPublished, RecordFailed, Logged;
    RunThree(s, Insert(w, insert), MarkPublished(w, mark), MarkFailed(w, fail));
    WorkerSteps(s, w, insert);
    InsertLogs(s, w, r, insert);
    var s1 := ApplyInsert(s, w, insert);
    WorkerSteps(s1, w, mark);
    MarkIsRefused(s1, w, r, mark);
    hide ApplyInsert;
    var s2 := ApplyMarkPublished(s1, w, mark);
    WorkerSteps(s2, w, fail);
    FailureIsMarked(s2, w, r, fail);
    hide ApplyMarkPublished, ApplyMarkFailed;
    assert ApplyMarkFailed(s2, w, fail).workers == s.workers[w := NextRow(s.workers[w])];
  }

  lemma InsertLogs(s: System, w: WorkerId, r: RowId, insert: Outcome)
    requires AtRow(s, w, r) && ApplyInsert(s, w, insert).workers[w].pc == AtMarkPublished(false)
    ensures s.db.rows[r].payload.Some? && insert == Returns && !Logged(s.db, s.db.rows[r].payload.value.id)
    ensures ApplyInsert(s, w, insert) ==
            System(s.db.(log := s.db.log + [s.db.rows[r].payload.value]),
                   s.workers[w := s.workers[w].(pc := AtMarkPublished(false))])
  {}

  lemma MarkIsRefused(s: System, w: WorkerId, r: RowId, mark: Outcome)
    requires w in s.workers && s.workers[w].pc == AtMarkPublished(false) && mark != Returns
    requires s.workers[w].queue != [] && s.workers[w].queue[0] == r && r in s.db.rows
    ensures ApplyMarkPublished(s, w, mark) ==
            System(RecordPublished(s.db, r, s.workers[w].now, mark), s.workers[w := s.workers[w].(pc := AtMarkFailed)])
    ensures r in RecordPublished(s.db, r, s.workers[w].now, mark).rows
  {}

  lemma FailureIsMarked(s: System, w: WorkerId, r: RowId, fail: Outcome)
    requires w in s.workers && s.workers[w].pc == AtMarkFailed
    requires s.workers[w].queue != [] && s.workers[w].queue[0] == r && r in s.db.rows
    ensures ApplyMarkFailed(s, w, fail) ==
            System(RecordFailed(s.db, r, s.workers[w].now, fail), s.workers[w := NextRow(s.workers[w])])
  {}

  /** Every way one row can go is a run of the worker's own steps. */
  lemma AttemptRuns(s: System, w: WorkerId, r: RowId, insert: Outcome, mark: Outcome, fail: Outcome)
    requires AtRow(s, w, r)
    ensures RunsAsAttempt(s, w, r, insert, mark, fail)
  {
    hide RunsAsAttempt;
    var pc := ApplyInsert(s, w, insert).workers[w].pc;
    if pc == AtMarkFailed {
      InsertFailsRuns(s, w, r, insert, mark, fail);
    } else if mark == Returns || pc.duplicate {
      InsertPublishesRuns(s, w, r, insert, mark, fail);
    } else {
      MarkFailsRuns(s, w, r, insert, mark, fail);
    }
  }

  /** When every call returns, one row is settled and counted exactly if it decodes. */
  lemma CleanAttempt(db: Db, r: RowId, now: int)
    requires r in db.rows
    ensures Attempt(db, r, now, Returns, Returns, Returns) ==
            RowResult(Settle(db, r, now), db.rows[r].payload.Some?, false)
  {
  }

  function Released(db: Db, now: int, release: Outcome): (released: Db)
    ensures released.rows.Keys == db.rows.Keys
  {
    if release == Lost then db else ReleaseStale(db, now)
  }

  /** The tables after the release and the claim of a pass, for every outcome of the two calls. */
  function Begun(db: Db, w: WorkerId, now: int, ids: seq<RowId>, release: Outcome, claim: Outcome): (begun: Db)
    ensures begun.rows.Keys == db.rows.Keys
  {
    var released := Released(db, now, release);
    if claim == Lost then released else ClaimRows(released, ids, w, now)
  }

  function Opening(w: WorkerId, now: int, batch: int, ids: seq<RowId>, release: Outcome, claim: Outcome): seq<Action> {
    [Start(w, now, batch), Release(w, release), Claim(w, ids, claim)]
  }

  /** The worker after the claim. */
  function Claimed(now: int, batch: int, ids: seq<RowId>, claim: Outcome): Worker {
    if claim == Returns then LoopWorker(ids, 0, now, batch, 0) else Worker(Idle, now, batch, [], 0)
  }

  predicate IsIdle(workers: map<WorkerId, Worker>, w: WorkerId) {
    w in workers ==> workers[w].pc == Idle
  }

  lemma OpeningRuns(s: System, w: WorkerId, now: int, batch: int, ids: seq<RowId>, release: Outcome, claim: Outcome)
    requires IsIdle(s.workers, w) && Claimable(Released(s.db, now, release), ids, batch, now)
    ensures Run(s, Opening(w, now, batch, ids, release, claim)) ==
            System(Begun(s.db, w, now, ids, release, claim), s.workers[w := Claimed(now, batch, ids, claim)])
  {
    RunThree(s, Start(w, now, batch), Release(w, release), Claim(w, ids, claim));
    hide Run, Apply, ReleaseStale, ClaimRows, Claimable;
    var s1 := System(s.db, s.workers[w := Worker(AtRelease, now, batch, [], 0)]);
    StartMoves(s, w, now, batch);
    var s2 := System(Released(s.db, now, release), s.workers[w := Worker(AtClaim, now, batch, [], 0)]);
    ReleaseMoves(s1, w, release);
    assert s1.workers[w := Worker(AtClaim, now, batch, [], 0)] == s2.workers;
    assert Apply(s1, Release(w, release)) == s2;
    ClaimMoves(s2, w, ids, claim);
    assert ids[0..] == ids;
    assert s2.workers[w := Claimed(now, batch, ids, claim)] == s.workers[w := Claimed(now, batch, ids, claim)];
  }

  lemma StartMoves(s: System, w: WorkerId, now: int, batch: int)
    requires IsIdle(s.workers, w)
    ensures Apply(s, Start(w, now, batch)) == System(s.db, s.workers[w := Worker(AtRelease, now, batch, [], 0)])
  {}

  lemma ReleaseMoves(s: System, w: WorkerId, release: Outcome)
    requires w in s.workers && s.workers[w].pc == AtRelease
    ensures Apply(s, Release(w, release)) ==
            System(Released(s.db, s.workers[w].now, release), s.workers[w := s.workers[w].(pc := AtClaim)])
  {}

  lemma ClaimMoves(s: System, w: WorkerId, ids: seq<RowId>, claim: Outcome)
    requires w in s.workers && s.workers[w].pc == AtClaim && s.workers[w].queue == [] && s.workers[w].published == 0
    requires Claimable(s.db, ids, s.workers[w].batch, s.workers[w].now)
    ensures
      var worker := s.workers[w];
      Apply(s, Claim(w, ids, claim)) ==
      System(if claim == Lost then s.db else ClaimRows(s.db, ids, w, worker.now),
             s.workers[w := Claimed(worker.now, worker.batch, ids, claim)])
  {
    hide Claimable, ClaimRows;
    assert ids[0..] == ids;
  }

  ghost predicate AllReturn(calls: Calls) {
    forall k: nat :: calls(k) == Returns
  }

  /** Worker `w` at the i-th of its claimed rows, or past the last one. */
  function LoopWorker(ids: seq<RowId>, i: nat, now: int, batch: int, published: nat): Worker
    requires i <= |ids|
  {
    Worker(if i < |ids| then AtInsert else Idle, now, batch, ids[i..], published)
  }

  /** The steps are the worker's own, and it does not crash. */
  predicate OwnSteps(trace: seq<Action>, w: WorkerId) {
    forall k :: 0 <= k < |trace| ==> !trace[k].Emit? && !trace[k].Crash? && trace[k].w == w
  }

  /** The worker has gone through its pass to the end. */
  predicate PassOver(s: System, w: WorkerId, published: nat) {
    w in s.workers && s.workers[w].pc == Idle && s.workers[w].published == published
  }

  /** Only this worker has moved. */
  predicate OthersWait(s: System, s': System, w: WorkerId) {
    w in s'.workers && s'.workers == s.workers[w := s'.workers[w]]
  }

  /** A pass after `i` rows: the trace so far leads to the tables, and the worker is where the loop is. */
  ghost predicate Midway(s: System, trace: seq<Action>, w: WorkerId, ids: seq<RowId>, i: nat, now: int, batch: int,
                         published: nat, raised: bool, db: Db) {
    && i <= |ids|
    && Run(s, trace).db == db
    && OwnSteps(trace, w)
    && (forall k :: 0 <= k < |ids| ==> ids[k] in db.rows)
    && OthersWait(s, Run(s, trace), w)
    && if raised then PassOver(Run(s, trace), w, published)
       else Run(s, trace).workers[w] == LoopWorker(ids, i, now, batch, published)
  }

  lemma PassBegins(s: System, w: WorkerId, ids: seq<RowId>, now: int, batch: int)
    requires w in s.workers && s.workers[w] == LoopWorker(ids, 0, now, batch, 0)
    requires forall k :: 0 <= k < |ids| ==> ids[k] in s.db.rows
    ensures Midway(s, [], w, ids, 0, now, batch, 0, false, s.db)
  {}

  lemma SettleNone(db: Db, ids: seq<RowId>, now: int)
    ensures SettleAll(db, ids[..0], now) == db && CountDecodable(db, ids[..0]) == 0
  {}

  lemma AttemptSteps(db: Db, r: RowId, w: WorkerId, now: int, insert: Outcome, mark: Outcome, fail: Outcome)
    requires r in db.rows
    ensures OwnSteps(AttemptTrace(db, r, w, insert, mark, fail), w)
    ensures Attempt(db, r, now, insert, mark, fail).db.rows.Keys == db.rows.Keys
    ensures var result := Attempt(db, r, now, insert, mark, fail); result.raised ==> !result.published
  {}

  lemma NextAttempt(s: System, trace: seq<Action>, w: WorkerId, ids: seq<RowId>, i: nat, now: int, batch: int,
                    published: nat, db: Db, insert: Outcome, mark: Outcome, fail: Outcome)
    requires i < |ids| && Midway(s, trace, w, ids, i, now, batch, published, false, db)
    ensures ids[i] in db.rows
    ensures
      var result := Attempt(db, ids[i], now, insert, mark, fail);
      Midway(s, trace + AttemptTrace(db, ids[i], w, insert, mark, fail), w, ids, i + 1, now, batch,
             published + (if result.published then 1 else 0), result.raised, result.db)
  {
    hide Run, Attempt, AttemptTrace;
    var before := Run(s, trace);
    AttemptRuns(before, w, ids[i], insert, mark, fail);
    AttemptSteps(db, ids[i], w, now, insert, mark, fail);
    RunConcat(s, trace, AttemptTrace(before.db, ids[i], w, insert, mark, fail));
    assert ids[i..][1..] == ids[i + 1..];
  }

  lemma PassEnds(s: System, trace: seq<Action>, w: WorkerId, ids: seq<RowId>, now: int, batch: int,
                 published: nat, raised: bool, i: nat, db: Db)
    requires Midway(s, trace, w, ids, i, now, batch, published, raised, db) && (raised || i == |ids|)
    ensures Run(s, trace).db == db && OwnSteps(trace, w)
    ensures PassOver(Run(s, trace), w, published) && OthersWait(s, Run(s, trace), w)
  {}

  lemma {:induction false} SamePayloadsSameCount(a: Db, b: Db, ids: seq<RowId>)
    requires forall k :: 0 <= k < |ids| ==> ids[k] in a.rows && ids[k] in b.rows
    requires forall k :: 0 <= k < |ids| ==> a.rows[ids[k]].payload == b.rows[ids[k]].payload
    ensures CountDecodable(a, ids) == CountDecodable(b, ids)
  {
    if ids != [] { SamePayloadsSameCount(a, b, ids[..|ids| - 1]); }
  }

  /** When every call returns, the attempts settle the rows one after the other. */
  lemma CleanNext(db: Db, ids: seq<RowId>, i: nat, now: int)
    requires i < |ids| && forall k :: 0 <= k < |ids| ==> ids[k] in db.rows
    ensures
      var before, decodes := SettleAll(db, ids[..i], now), db.rows[ids[i]].payload.Some?;
      && ids[i] in before.rows
      && Attempt(before, ids[i], now, Returns, Returns, Returns) ==
         RowResult(SettleAll(db, ids[..i + 1], now), decodes, false)
      && CountDecodable(db, ids[..i + 1]) == CountDecodable(db, ids[..i]) + (if decodes then 1 else 0)
  {
    hide Attempt, Settle, SettleAll, CountDecodable;
    SettleNext(db, db, ids, i, now);
    CleanAttempt(SettleAll(db, ids[..i], now), ids[i], now);
  }

  lemma SettleNext(db: Db, db0: Db, ids: seq<RowId>, i: nat, now: int)
    requires i < |ids| && db.rows.Keys == db0.rows.Keys
    requires forall k :: 0 <= k < |ids| ==> ids[k] in db.rows
    ensures SettleAll(db, ids[..i + 1], now) == Settle(SettleAll(db, ids[..i], now), ids[i], now)
    ensures CountDecodable(db0, ids[..i + 1]) ==
            CountDecodable(db0, ids[..i]) + (if db0.rows[ids[i]].payload.Some? then 1 else 0)
    ensures SettleAll(db, ids[..i], now).rows[ids[i]].payload == db.rows[ids[i]].payload
  {
    assert ids[..i + 1][..i] == ids[..i];
    SettleAllPayloads(db, ids[..i], now);
  }

  /******* Any number of clean passes *******/

  /** What a pass at this time finds claimable, once it has released stale rows. */
  function Due(db: Db, now: int): set<RowId> {
    EligibleRows(ReleaseStale(db, now), now)
  }

  function RowSet(ids: seq<RowId>): set<RowId> {
    set r | r in ids
  }

  predicate IsCleanPass(a: Db, b: Db, ids: seq<RowId>, w: WorkerId, now: int, batch: int) {
    InTable(a, ids) && FirstClaimable(ReleaseStale(a, now), ids, batch, now) && b == CleanPass(a, ids, w, now)
  }

  /** Releasing again finds nothing stale. */
  lemma NothingStale(a: Db, ids: seq<RowId>, w: WorkerId, now: int, batch: int)
    requires InTable(a, ids) && Claimable(ReleaseStale(a, now), ids, batch, now)
    ensures ReleaseStale(CleanPass(a, ids, w, now), now) == CleanPass(a, ids, w, now)
  {
    var b := CleanPass(a, ids, w, now);
    CleanPassRows(a, ids, w, now, batch);
    hide CleanPass, Backoff;
    forall r | r in b.rows ensures !Stale(b.rows[r], now) {
      if r in ids { var i :| 0 <= i < |ids| && ids[i] == r; }
    }
  }

  lemma {:induction false} RowSetSize(ids: seq<RowId>)
    requires forall i, j :: 0 <= i < j < |ids| ==> ids[i] != ids[j]
    ensures |RowSet(ids)| == |ids|
  {
    if ids != [] {
      var n := |ids| - 1;
      RowSetSize(ids[..n]);
      assert ids == ids[..n] + [ids[n]] && ids[n] !in ids[..n];
      assert RowSet(ids) == RowSet(ids[..n]) + {ids[n]};
    }
  }

  lemma DueTaken(a: Db, ids: seq<RowId>, now: int, batch: int)
    requires FirstClaimable(ReleaseStale(a, now), ids, batch, now)
    ensures RowSet(ids) <= Due(a, now) && |RowSet(ids)| == AtMost(batch, |Due(a, now)|)
  {
    var released := ReleaseStale(a, now);
    assert Availability(released, now).Keys == Due(a, now);
    hide ReleaseStale, Eligible;
    RowSetSize(ids);
  }

  lemma DueAfter(a: Db, ids: seq<RowId>, w: WorkerId, now: int, batch: int)
    requires DbOk(a) && InTable(a, ids) && FirstClaimable(ReleaseStale(a, now), ids, batch, now)
    ensures Due(CleanPass(a, ids, w, now), now) == Due(a, now) - RowSet(ids)
  {
    hide DbOk, CleanPass, FirstClaimable;
    FirstClaimableIsClaimable(ReleaseStale(a, now), ids, batch, now);
    CleanPassRows(a, ids, w, now, batch);
    NothingStale(a, ids, w, now, batch);
  }

  lemma LessBy(due: set<RowId>, taken: set<RowId>)
    requires taken <= due
    ensures |due - taken| == |due| - |taken|
  {
    assert due == taken + (due - taken);
  }

  /** A clean pass takes a batch off what is due. */
  lemma PassShrinks(a: Db, b: Db, ids: seq<RowId>, w: WorkerId, now: int, batch: int)
    requires DbOk(a) && IsCleanPass(a, b, ids, w, now, batch)
    ensures DbOk(b) && Extends(a, b)
    ensures RowSet(ids) <= Due(a, now) && Due(b, now) == Due(a, now) - RowSet(ids)
    ensures |Due(b, now)| == |Due(a, now)| - AtMost(batch, |Due(a, now)|)
  {
    hide DbOk, CleanPass, Extends, FirstClaimable, ReleaseStale, Due, RowSet;
    FirstClaimableIsClaimable(ReleaseStale(a, now), ids, batch, now);
    CleanPassKeeps(a, ids, w, now, batch);
    DueTaken(a, ids, now, batch);
    DueAfter(a, ids, w, now, batch);
    LessBy(Due(a, now), RowSet(ids));
  }

  /** The row is published, and its event is in the log. */
  predicate Done(db: Db, r: RowId) {
    r in db.rows && db.rows[r].status == Published && Delivered(db, r)
  }

  lemma PassFinishes(a: Db, b: Db, ids: seq<RowId>, w: WorkerId, now: int, batch: int, r: RowId)
    requires DbOk(a) && IsCleanPass(a, b, ids, w, now, batch)
    ensures r in a.rows && a.rows[r].payload.Some? && (r in ids || Done(a, r)) ==>
      r in b.rows && b.rows[r].payload.Some? && Done(b, r)
  {
    hide DbOk, CleanPass;
    FirstClaimableIsClaimable(ReleaseStale(a, now), ids, batch, now);
    CleanPassKeeps(a, ids, w, now, batch);
    Convergence(a, ids, w, now, batch);
    if r in ids { var i :| 0 <= i < |ids| && ids[i] == r; }
  }

  datatype Pass = Pass(w: WorkerId, ids: seq<RowId>)

  /** One clean pass after the other, by any workers, all at one time. */
  predicate ArePasses(dbs: seq<Db>, passes: seq<Pass>, now: int, batch: int) {
    && |dbs| == |passes| + 1
    && forall i :: 0 <= i < |passes| ==> IsCleanPass(dbs[i], dbs[i + 1], passes[i].ids, passes[i].w, now, batch)
  }

  function Remaining(due: nat, batch: nat, passes: nat): nat {
    if passes == 0 then due else var before := Remaining(due, batch, passes - 1); before - AtMost(batch, before)
  }

  lemma {:induction false} RemainingIs(due: nat, batch: nat, passes: nat)
    ensures Remaining(due, batch, passes) == if due <= passes * batch then 0 else due - passes * batch
  {
    if passes > 0 {
      RemainingIs(due, batch, passes - 1);
      assert passes * batch == (passes - 1) * batch + batch;
    }
  }

  /** So much is done after `k` passes. */
  ghost predicate Progressed(start: Db, db: Db, now: int, batch: nat, k: nat) {
    && DbOk(db) && Extends(start, db)
    && Due(db, now) <= Due(start, now) && |Due(db, now)| == Remaining(|Due(start, now)|, batch, k)
    && forall r :: r in start.rows && start.rows[r].payload.Some? && r in Due(start, now) && r !in Due(db, now) ==>
         Done(db, r)
  }

  lemma ProgressNone(db: Db, now: int, batch: nat)
    requires DbOk(db)
    ensures Progressed(db, db, now, batch, 0)
  {
    hide DbOk, Due, Extends, Done;
    ExtendsItself(db);
  }

  lemma ProgressNext(start: Db, a: Db, b: Db, pass: Pass, now: int, batch: nat, k: nat)
    requires IsCleanPass(a, b, pass.ids, pass.w, now, batch)
    ensures Progressed(start, a, now, batch, k) ==> Progressed(start, b, now, batch, k + 1)
  {
    hide DbOk, Due, Extends, Done, IsCleanPass;
    if Progressed(start, a, now, batch, k) {
      PassShrinks(a, b, pass.ids, pass.w, now, batch);
      ExtendsTransitive(start, a, b);
      forall r | r in start.rows && start.rows[r].payload.Some? && r in Due(start, now) && r !in Due(b, now)
        ensures Done(b, r)
      {
        SamePayload(start, a, r);
        PassFinishes(a, b, pass.ids, pass.w, now, batch, r);
      }
    }
  }

  /** Every pass takes the next batch, and what it takes is done for good. */
  lemma {:induction false} PassesProgress(dbs: seq<Db>, passes: seq<Pass>, now: int, batch: nat, k: nat)
    requires ArePasses(dbs, passes, now, batch) && k <= |passes| && DbOk(dbs[0])
    ensures Progressed(dbs[0], dbs[k], now, batch, k)
    decreases k
  {
    hide DbOk, Progressed, IsCleanPass;
    if k == 0 {
      ProgressNone(dbs[0], now, batch);
    } else {
      PassesProgress(dbs, passes, now, batch, k - 1);
      assert IsCleanPass(dbs[k - 1], dbs[k - 1 + 1], passes[k - 1].ids, passes[k - 1].w, now, batch);
      ProgressNext(dbs[0], dbs[k - 1], dbs[k], passes[k - 1], now, batch, k - 1);
    }
  }

  lemma SamePayload(a: Db, b: Db, r: RowId)
    requires Extends(a, b) && r in a.rows
    ensures r in b.rows && b.rows[r].payload == a.rows[r].payload
  {}

  /**
   Draining: from any database a run can reach, enough clean passes leave nothing to claim, and every row that
   was due at the start and decodes is published and delivered. Enough is exactly the number of batches.
   */
  lemma EnoughPassesDrain(dbs: seq<Db>, passes: seq<Pass>, now: int, batch: nat)
    requires ArePasses(dbs, passes, now, batch) && DbOk(dbs[0])
    ensures
      var start, after := Due(dbs[0], now), dbs[|passes|];
      && (Due(after, now) == {} <==> |start| <= |passes| * batch)
      && (|start| <= |passes| * batch ==>
            forall r :: r in start && r in dbs[0].rows && dbs[0].rows[r].payload.Some? ==> Done(after, r))
  {
    hide DbOk, Due, Extends, Done, IsCleanPass;
    PassesProgress(dbs, passes, now, batch, |passes|);
    RemainingIs(|Due(dbs[0], now)|, batch, |passes|);
  }

  /******* A pass row by row, for all outcomes *******/

  /** The outcomes of the three calls for one claimed row; not all of them are made. */
  datatype RowCalls = RowCalls(insert: Outcome, mark: Outcome, fail: Outcome)

  /** The calls for the i-th claimed row. */
  function CallsFor(calls: Calls, i: nat): RowCalls {
    RowCalls(calls(2 + 3 * i), calls(3 + 3 * i), calls(4 + 3 * i))
  }

  function AttemptWith(db: Db, r: RowId, now: int, c: RowCalls): (result: RowResult)
    requires r in db.rows
    ensures result.db.rows.Keys == db.rows.Keys
  {
    Attempt(db, r, now, c.insert, c.mark, c.fail)
  }

  function TraceWith(db: Db, r: RowId, w: WorkerId, c: RowCalls): seq<Action>
    requires r in db.rows
  {
    AttemptTrace(db, r, w, c.insert, c.mark, c.fail)
  }

  predicate InTable(db: Db, ids: seq<RowId>) {
    forall k :: 0 <= k < |ids| ==> ids[k] in db.rows
  }

  datatype PassResult = PassResult(db: Db, attempts: nat, published: nat, raised: bool, trace: seq<Action>)

  function AfterRow(before: PassResult, r: RowId, w: WorkerId, now: int, c: RowCalls): PassResult
    requires r in before.db.rows
  {
    var result := AttemptWith(before.db, r, now, c);
    PassResult(result.db, before.attempts + 1, before.published + (if result.published then 1 else 0), result.raised,
               before.trace + TraceWith(before.db, r, w, c))
  }

  /** Attempt the first `n` rows one after the other, up to the first attempt that aborts the pass. */
  function Publishing(db: Db, ids: seq<RowId>, n: nat, w: WorkerId, now: int, calls: Calls): (result: PassResult)
    requires n <= |ids| && InTable(db, ids)
    ensures result.db.rows.Keys == db.rows.Keys
    decreases n
  {
    if n == 0 then PassResult(db, 0, 0, false, [])
    else
      var before := Publishing(db, ids, n - 1, w, now, calls);
      if before.raised then before else AfterRow(before, ids[n - 1], w, now, CallsFor(calls, n - 1))
  }

  lemma PublishingStep(db: Db, ids: seq<RowId>, k: nat, w: WorkerId, now: int, calls: Calls)
    requires k < |ids| && InTable(db, ids)
    ensures
      var before, after := Publishing(db, ids, k, w, now, calls), Publishing(db, ids, k + 1, w, now, calls);
      var result := AttemptWith(before.db, ids[k], now, CallsFor(calls, k));
      if before.raised then after == before
      else
        && after.db == result.db && after.raised == result.raised && after.attempts == before.attempts + 1
        && after.published == before.published + (if result.published then 1 else 0)
  {
    hide AttemptWith, TraceWith, CallsFor;
  }

  lemma PublishingTrace(db: Db, ids: seq<RowId>, k: nat, w: WorkerId, now: int, calls: Calls)
    requires k < |ids| && InTable(db, ids) && !Publishing(db, ids, k, w, now, calls).raised
    ensures
      var before, after := Publishing(db, ids, k, w, now, calls), Publishing(db, ids, k + 1, w, now, calls);
      after.trace == before.trace + TraceWith(before.db, ids[k], w, CallsFor(calls, k))
  {
    hide AttemptWith, TraceWith, CallsFor;
  }

  lemma PublishingStarts(db: Db, ids: seq<RowId>, w: WorkerId, now: int, calls: Calls)
    requires InTable(db, ids)
    ensures Publishing(db, ids, 0, w, now, calls) == PassResult(db, 0, 0, false, [])
  {}

  lemma MidwayStays(s: System, trace: seq<Action>, w: WorkerId, ids: seq<RowId>, i: nat, now: int, batch: int,
                    published: nat, db: Db)
    requires i < |ids| && Midway(s, trace, w, ids, i, now, batch, published, true, db)
    ensures Midway(s, trace, w, ids, i + 1, now, batch, published, true, db)
  {
    hide Run, OwnSteps, PassOver, OthersWait;
  }

  lemma AllReturnFor(calls: Calls, i: nat)
    requires AllReturn(calls)
    ensures CallsFor(calls, i) == RowCalls(Returns, Returns, Returns)
  {}

  /** The worker's run has come as far as the fold. */
  ghost predicate RunsAsFolded(s: System, w: WorkerId, ids: seq<RowId>, n: nat, now: int, batch: int, calls: Calls)
    requires n <= |ids| && InTable(s.db, ids)
  {
    var result := Publishing(s.db, ids, n, w, now, calls);
    Midway(s, result.trace, w, ids, n, now, batch, result.published, result.raised, result.db)
  }

  lemma PublishingRunsNone(s: System, w: WorkerId, ids: seq<RowId>, now: int, batch: int, calls: Calls)
    requires w in s.workers && s.workers[w] == LoopWorker(ids, 0, now, batch, 0) && InTable(s.db, ids)
    ensures RunsAsFolded(s, w, ids, 0, now, batch, calls)
  {
    PublishingStarts(s.db, ids, w, now, calls);
    PassBegins(s, w, ids, now, batch);
    hide Publishing, Midway;
  }

  lemma PublishingRunsNext(s: System, w: WorkerId, ids: seq<RowId>, k: nat, now: int, batch: int, calls: Calls)
    requires k < |ids| && InTable(s.db, ids) && RunsAsFolded(s, w, ids, k, now, batch, calls)
    ensures RunsAsFolded(s, w, ids, k + 1, now, batch, calls)
  {
    hide Publishing, Attempt, AttemptTrace, Run, Midway, LoopWorker, CallsFor;
    var before := Publishing(s.db, ids, k, w, now, calls);
    PublishingStep(s.db, ids, k, w, now, calls);
    if before.raised {
      MidwayStays(s, before.trace, w, ids, k, now, batch, before.published, before.db);
    } else {
      var c := CallsFor(calls, k);
      PublishingTrace(s.db, ids, k, w, now, calls);
      NextAttempt(s, before.trace, w, ids, k, now, batch, before.published, before.db, c.insert, c.mark, c.fail);
    }
  }

  /** The fold is the worker's run. */
  lemma {:induction false} PublishingRuns(s: System, w: WorkerId, ids: seq<RowId>, n: nat, now: int, batch: int,
                                          calls: Calls)
    requires w in s.workers && s.workers[w] == LoopWorker(ids, 0, now, batch, 0) && InTable(s.db, ids) && n <= |ids|
    ensures RunsAsFolded(s, w, ids, n, now, batch, calls)
    decreases n
  {
    hide RunsAsFolded;
    if n == 0 {
      PublishingRunsNone(s, w, ids, now, batch, calls);
    } else {
      PublishingRuns(s, w, ids, n - 1, now, batch, calls);
      PublishingRunsNext(s, w, ids, n - 1, now, batch, calls);
    }
  }

  /** The rows so far are settled. */
  ghost predicate FoldsCleanly(db: Db, ids: seq<RowId>, n: nat, w: WorkerId, now: int, calls: Calls)
    requires n <= |ids| && InTable(db, ids)
  {
    var result := Publishing(db, ids, n, w, now, calls);
    && InTable(db, ids[..n]) && !result.raised
    && result.db == SettleAll(db, ids[..n], now) && result.published == CountDecodable(db, ids[..n])
  }

  lemma FoldsCleanlyNone(db: Db, ids: seq<RowId>, w: WorkerId, now: int, calls: Calls)
    requires InTable(db, ids)
    ensures FoldsCleanly(db, ids, 0, w, now, calls)
  {
    PublishingStarts(db, ids, w, now, calls);
    SettleNone(db, ids, now);
    hide Publishing, SettleAll, CountDecodable;
  }

  lemma FoldsCleanlyNext(db: Db, ids: seq<RowId>, k: nat, w: WorkerId, now: int, calls: Calls)
    requires k < |ids| && InTable(db, ids) && AllReturn(calls) && FoldsCleanly(db, ids, k, w, now, calls)
    ensures FoldsCleanly(db, ids, k + 1, w, now, calls)
  {
    AllReturnFor(calls, k);
    hide Publishing, Attempt, AttemptTrace, SettleAll, CountDecodable, CallsFor, AllReturn;
    PublishingStep(db, ids, k, w, now, calls);
    CleanNext(db, ids, k, now);
  }

  /** When every call returns, the fold settles every row. */
  lemma {:induction false} PublishingClean(db: Db, ids: seq<RowId>, n: nat, w: WorkerId, now: int, calls: Calls)
    requires InTable(db, ids) && n <= |ids| && AllReturn(calls)
    ensures FoldsCleanly(db, ids, n, w, now, calls)
    decreases n
  {
    hide FoldsCleanly;
    if n == 0 {
      FoldsCleanlyNone(db, ids, w, now, calls);
    } else {
      PublishingClean(db, ids, n - 1, w, now, calls);
      FoldsCleanlyNext(db, ids, n - 1, w, now, calls);
    }
  }

  /** Once aborted, a pass stays as it is. */
  lemma {:induction false} PublishingStops(db: Db, ids: seq<RowId>, w: WorkerId, now: int, calls: Calls, i: nat, n: nat)
    requires i <= n <= |ids| && InTable(db, ids) && (i == n || Publishing(db, ids, i, w, now, calls).raised)
    ensures Publishing(db, ids, n, w, now, calls) == Publishing(db, ids, i, w, now, calls)
    decreases n
  {
    hide Publishing;
    if i < n {
      PublishingStops(db, ids, w, now, calls, i, n - 1);
      PublishingStep(db, ids, n - 1, w, now, calls);
    }
  }

  /** An attempt logs no event but its own. */
  lemma AttemptLogsOwn(db: Db, r: RowId, now: int, c: RowCalls, id: string)
    requires r in db.rows && (db.rows[r].payload.Some? ==> db.rows[r].payload.value.id != id)
    ensures Logged(AttemptWith(db, r, now, c).db, id) <==> Logged(db, id)
  {
    var after := AttemptWith(db, r, now, c).db;
    hide FailedRow, PublishedRow;
    if after.log != db.log {
      var e := db.rows[r].payload.value;
      assert after.log == db.log + [e];
      if i :| 0 <= i < |db.log| && db.log[i].id == id { assert after.log[i].id == id; }
    }
  }

  /** What becomes of a row depends on the row and on whether its event is logged, on nothing else. */
  lemma AttemptIsLocal(a: Db, b: Db, r: RowId, now: int, c: RowCalls)
    requires r in a.rows && r in b.rows && a.rows[r] == b.rows[r]
    requires a.rows[r].payload.Some? ==>
      var id := a.rows[r].payload.value.id; Logged(a, id) <==> Logged(b, id)
    ensures
      var x, y := AttemptWith(a, r, now, c), AttemptWith(b, r, now, c);
      x.published == y.published && x.raised == y.raised && x.db.rows[r] == y.db.rows[r]
  {
    hide FailedRow, PublishedRow, Logged;
  }

  /** Distinct rows of a table in order. */
  predicate ClaimedRows(db: Db, ids: seq<RowId>) {
    && RowsOk(db) && InTable(db, ids)
    && (forall i, j :: 0 <= i < j < |ids| ==> ids[i] != ids[j])
  }

  lemma OtherEvent(db: Db, r: RowId, q: RowId)
    requires RowsOk(db) && r in db.rows && q in db.rows && q != r
    ensures db.rows[r].payload.Some? ==> db.rows[r].payload.value.id == db.rows[r].eventId != db.rows[q].eventId
  {}

  /** The attempts do not reach other rows. */
  lemma {:induction false} PassLeavesRow(db: Db, ids: seq<RowId>, n: nat, w: WorkerId, now: int, calls: Calls,
                                         r: RowId)
    requires n <= |ids| && InTable(db, ids) && r in db.rows && forall k :: 0 <= k < n ==> ids[k] != r
    ensures Publishing(db, ids, n, w, now, calls).db.rows[r] == db.rows[r]
    decreases n
  {
    hide Publishing, AttemptWith, TraceWith, CallsFor;
    if n == 0 {
      PublishingStarts(db, ids, w, now, calls);
    } else {
      PassLeavesRow(db, ids, n - 1, w, now, calls, r);
      PublishingStep(db, ids, n - 1, w, now, calls);
      AttemptKeeps(Publishing(db, ids, n - 1, w, now, calls).db, ids[n - 1], now, CallsFor(calls, n - 1), r);
    }
  }

  /** Nor do they log the event of another row. */
  lemma {:induction false} PassLeavesLog(db: Db, ids: seq<RowId>, n: nat, w: WorkerId, now: int, calls: Calls,
                                         r: RowId)
    requires n <= |ids| && ClaimedRows(db, ids) && r in db.rows && forall k :: 0 <= k < n ==> ids[k] != r
    ensures Logged(Publishing(db, ids, n, w, now, calls).db, db.rows[r].eventId) <==> Logged(db, db.rows[r].eventId)
    decreases n
  {
    hide Publishing, AttemptWith, TraceWith, CallsFor, Logged, RowsOk;
    if n == 0 {
      PublishingStarts(db, ids, w, now, calls);
    } else {
      var last := ids[n - 1];
      PassLeavesLog(db, ids, n - 1, w, now, calls, r);
      PublishingStep(db, ids, n - 1, w, now, calls);
      PassLeavesRow(db, ids, n - 1, w, now, calls, last);
      OtherEvent(db, last, r);
      var before := Publishing(db, ids, n - 1, w, now, calls).db;
      AttemptLogsOwn(before, last, now, CallsFor(calls, n - 1), db.rows[r].eventId);
    }
  }

  /** The attempt of a claimed row taken by itself, straight after the claim. */
  function Alone(db: Db, ids: seq<RowId>, k: nat, now: int, calls: Calls): (result: RowResult)
    requires k < |ids| && ids[k] in db.rows
    ensures result.db.rows.Keys == db.rows.Keys
  {
    AttemptWith(db, ids[k], now, CallsFor(calls, k))
  }

  /** An attempt in its turn goes as it would have gone alone. */
  lemma InTurnAsAlone(db: Db, ids: seq<RowId>, k: nat, w: WorkerId, now: int, calls: Calls)
    requires k < |ids| && ClaimedRows(db, ids)
    ensures
      var before, alone := Publishing(db, ids, k, w, now, calls), Alone(db, ids, k, now, calls);
      var result := AttemptWith(before.db, ids[k], now, CallsFor(calls, k));
      && result.published == alone.published && result.raised == alone.raised
      && result.db.rows[ids[k]] == alone.db.rows[ids[k]]
  {
    OwnEvent(db, ids, ids[k]);
    hide AttemptWith, CallsFor, Publishing, Logged, RowsOk;
    PassLeavesRow(db, ids, k, w, now, calls, ids[k]);
    PassLeavesLog(db, ids, k, w, now, calls, ids[k]);
    AttemptIsLocal(Publishing(db, ids, k, w, now, calls).db, db, ids[k], now, CallsFor(calls, k));
  }

  lemma OwnEvent(db: Db, ids: seq<RowId>, r: RowId)
    requires ClaimedRows(db, ids) && r in db.rows
    ensures db.rows[r].payload.Some? ==> db.rows[r].payload.value.id == db.rows[r].eventId
  {}

  /** Later attempts leave an earlier row as it is. */
  lemma {:induction false} PassKeeps(db: Db, ids: seq<RowId>, n: nat, w: WorkerId, now: int, calls: Calls, k: nat)
    requires k < n <= |ids| && ClaimedRows(db, ids)
    ensures Publishing(db, ids, n, w, now, calls).db.rows[ids[k]] ==
            Publishing(db, ids, k + 1, w, now, calls).db.rows[ids[k]]
    decreases n
  {
    hide Publishing, AttemptWith, TraceWith, CallsFor, Logged, RowsOk;
    if k + 1 < n {
      PublishingStep(db, ids, n - 1, w, now, calls);
      var before := Publishing(db, ids, n - 1, w, now, calls);
      PassKeeps(db, ids, n - 1, w, now, calls, k);
      if !before.raised { AttemptKeeps(before.db, ids[n - 1], now, CallsFor(calls, n - 1), ids[k]); }
    }
  }

  lemma AttemptKeeps(db: Db, r: RowId, now: int, c: RowCalls, q: RowId)
    requires r in db.rows && q in db.rows && q != r
    ensures AttemptWith(db, r, now, c).db.rows[q] == db.rows[q]
  {
    hide FailedRow, PublishedRow, Logged;
  }

  /** How many of the first rows are published by their own attempts. */
  function PublishedAlone(db: Db, ids: seq<RowId>, n: nat, now: int, calls: Calls): nat
    requires n <= |ids| && InTable(db, ids)
    decreases n
  {
    if n == 0 then 0
    else PublishedAlone(db, ids, n - 1, now, calls) + (if Alone(db, ids, n - 1, now, calls).published then 1 else 0)
  }

  /** How far a pass gets. */
  lemma {:induction false} PassStops(db: Db, ids: seq<RowId>, n: nat, w: WorkerId, now: int, calls: Calls)
    requires n <= |ids| && InTable(db, ids)
    ensures
      var result := Publishing(db, ids, n, w, now, calls);
      && result.attempts <= n && (!result.raised ==> result.attempts == n) && (result.raised ==> result.attempts > 0)
      && result == Publishing(db, ids, result.attempts, w, now, calls)
    decreases n
  {
    hide Publishing, AttemptWith, TraceWith, CallsFor;
    if n == 0 {
      PublishingStarts(db, ids, w, now, calls);
    } else {
      PassStops(db, ids, n - 1, w, now, calls);
      PublishingStep(db, ids, n - 1, w, now, calls);
    }
  }

  /** The pass is aborted by the attempt it ends with. */
  lemma {:induction false} PassAborts(db: Db, ids: seq<RowId>, n: nat, w: WorkerId, now: int, calls: Calls)
    requires n <= |ids| && ClaimedRows(db, ids)
    ensures
      var result := Publishing(db, ids, n, w, now, calls);
      var k := result.attempts - 1;
      result.raised ==> 0 <= k < n && Alone(db, ids, k, now, calls).raised
    decreases n
  {
    hide Publishing, AttemptWith, TraceWith, CallsFor, Alone, RowsOk;
    if n == 0 {
      PublishingStarts(db, ids, w, now, calls);
    } else {
      PassAborts(db, ids, n - 1, w, now, calls);
      PublishingStep(db, ids, n - 1, w, now, calls);
      PassStops(db, ids, n - 1, w, now, calls);
      InTurnAsAlone(db, ids, n - 1, w, now, calls);
    }
  }

  /** What a pass counts. */
  lemma {:induction false} PassCounts(db: Db, ids: seq<RowId>, n: nat, w: WorkerId, now: int, calls: Calls)
    requires n <= |ids| && ClaimedRows(db, ids) && Publishing(db, ids, n, w, now, calls).attempts == n
    ensures Publishing(db, ids, n, w, now, calls).published == PublishedAlone(db, ids, n, now, calls)
    decreases n
  {
    hide Publishing, PublishedAlone, RowsOk;
    if n == 0 {
      CountsNone(db, ids, w, now, calls);
    } else {
      CountsNext(db, ids, n - 1, w, now, calls);
      PassCounts(db, ids, n - 1, w, now, calls);
    }
  }

  lemma CountsNone(db: Db, ids: seq<RowId>, w: WorkerId, now: int, calls: Calls)
    requires InTable(db, ids)
    ensures Publishing(db, ids, 0, w, now, calls).published == PublishedAlone(db, ids, 0, now, calls)
  {}

  lemma CountsNext(db: Db, ids: seq<RowId>, k: nat, w: WorkerId, now: int, calls: Calls)
    requires k < |ids| && ClaimedRows(db, ids)
    ensures
      var before, after := Publishing(db, ids, k, w, now, calls), Publishing(db, ids, k + 1, w, now, calls);
      after.attempts == k + 1 ==>
        && before.attempts == k
        && (before.published == PublishedAlone(db, ids, k, now, calls) ==>
              after.published == PublishedAlone(db, ids, k + 1, now, calls))
  {
    hide Publishing, AttemptWith, TraceWith, CallsFor, Alone, RowsOk;
    PassStops(db, ids, k, w, now, calls);
    PublishingStep(db, ids, k, w, now, calls);
    InTurnAsAlone(db, ids, k, w, now, calls);
  }

  /** An attempted row ends as its own attempt leaves it; only the last attempt can abort the pass. */
  lemma PassTakes(db: Db, ids: seq<RowId>, w: WorkerId, now: int, calls: Calls, k: nat)
    requires k < |ids| && ClaimedRows(db, ids)
    ensures
      var result, alone := Publishing(db, ids, |ids|, w, now, calls), Alone(db, ids, k, now, calls);
      k < result.attempts ==>
        && result.db.rows[ids[k]] == alone.db.rows[ids[k]]
        && (alone.raised <==> result.raised && k == result.attempts - 1)
  {
    hide RowsOk, AttemptWith, TraceWith, CallsFor, Publishing;
    var result := Publishing(db, ids, |ids|, w, now, calls);
    PassStops(db, ids, |ids|, w, now, calls);
    if k < result.attempts {
      NotYetRaised(db, ids, w, now, calls, k);
      InTurnAsAlone(db, ids, k, w, now, calls);
      PublishingStep(db, ids, k, w, now, calls);
      if k + 1 < result.attempts {
        NotYetRaised(db, ids, w, now, calls, k + 1);
      } else if result.raised {
        PassAborts(db, ids, |ids|, w, now, calls);
      }
      PassKeeps(db, ids, result.attempts, w, now, calls, k);
    }
  }

  lemma NotYetRaised(db: Db, ids: seq<RowId>, w: WorkerId, now: int, calls: Calls, k: nat)
    requires k < |ids| && ClaimedRows(db, ids)
    ensures k < Publishing(db, ids, |ids|, w, now, calls).attempts ==> !Publishing(db, ids, k, w, now, calls).raised
  {
    hide Publishing, RowsOk;
    PassStops(db, ids, |ids|, w, now, calls);
    PassStops(db, ids, k, w, now, calls);
    if Publishing(db, ids, k, w, now, calls).raised { PublishingStops(db, ids, w, now, calls, k, |ids|); }
  }

  /**
   A pass row by row, for every outcome of every call: each attempted row ends as if it had been attempted
   alone straight after the claim, the others stay as they were claimed, the count is that of the rows
   published by their own attempts, and the pass aborts exactly at the first attempt that does.
   */
  lemma PassIsRowwise(db: Db, ids: seq<RowId>, w: WorkerId, now: int, calls: Calls)
    requires ClaimedRows(db, ids)
    ensures
      var result := Publishing(db, ids, |ids|, w, now, calls);
      var n := result.attempts;
      && n <= |ids| && (!result.raised ==> n == |ids|)
      && result.published == PublishedAlone(db, ids, n, now, calls)
      && (result.raised <==> n > 0 && Alone(db, ids, n - 1, now, calls).raised)
      && (forall k :: 0 <= k < n - 1 ==> !Alone(db, ids, k, now, calls).raised)
      && (forall k :: 0 <= k < n ==> result.db.rows[ids[k]] == Alone(db, ids, k, now, calls).db.rows[ids[k]])
      && (forall r :: r in db.rows && r !in ids[..n] ==> result.db.rows[r] == db.rows[r])
  {
    hide Publishing, PublishedAlone, Alone, RowsOk, Logged;
    var result := Publishing(db, ids, |ids|, w, now, calls);
    var n := result.attempts;
    PassStops(db, ids, |ids|, w, now, calls);
    PassCounts(db, ids, n, w, now, calls);
    forall k | 0 <= k < n
      ensures result.db.rows[ids[k]] == Alone(db, ids, k, now, calls).db.rows[ids[k]]
      ensures Alone(db, ids, k, now, calls).raised <==> result.raised && k == n - 1
    {
      PassTakes(db, ids, w, now, calls, k);
    }
    forall r | r in db.rows && r !in ids[..n] ensures result.db.rows[r] == db.rows[r] {
      assert forall k :: 0 <= k < n ==> ids[k] in ids[..n];
      PassLeavesRow(db, ids, n, w, now, calls, r);
    }
  }

  /** One row's failure stays its own: a row whose own calls go the same way ends the same, whatever others' do. */
  lemma FailuresStayLocal(db: Db, ids: seq<RowId>, w: WorkerId, now: int, c1: Calls, c2: Calls, k: nat)
    requires k < |ids| && ClaimedRows(db, ids)
    ensures
      var one, two := Publishing(db, ids, |ids|, w, now, c1), Publishing(db, ids, |ids|, w, now, c2);
      CallsFor(c1, k) == CallsFor(c2, k) && k < one.attempts && k < two.attempts ==>
        one.db.rows[ids[k]] == two.db.rows[ids[k]]
  {
    hide AttemptWith, CallsFor, Publishing, RowsOk;
    PassTakes(db, ids, w, now, c1, k);
    PassTakes(db, ids, w, now, c2, k);
  }

  /******* The drain pass itself *******/

  class Outbox {
    var rows: map<RowId, Row>
    var log: seq<Event>

    ghost function Tables(): Db
      reads this
    {
      Db(rows, log)
    }

    /** The SELECT of the claim: ORDER BY available_at, id LIMIT batch. */
    method SelectClaimable(now: int, batch: int) returns (ids: seq<RowId>)
      ensures FirstClaimable(Tables(), ids, batch, now) && Claimable(Tables(), ids, batch, now)
    {
      ids := SelectFirst(map r | r in rows && Eligible(rows[r], now) :: rows[r].availableAt, batch);
      FirstClaimableIsClaimable(Tables(), ids, batch, now);
    }

    /** One claimed row: insert its event, then mark it. */
    method PublishRow(r: RowId, now: int, insert: Outcome, mark: Outcome, fail: Outcome)
      returns (published: bool, raised: bool)
      requires r in rows
      modifies this
      ensures Attempt(old(Tables()), r, now, insert, mark, fail) == RowResult(Tables(), published, raised)
      ensures
        var e := old(rows)[r].payload;
        var duplicate := e.Some? && Logged(old(Tables()), e.value.id);
        var delivered := e.Some? && (insert == Returns || (insert != Lost && duplicate));
        && (published <==> delivered && mark == Returns)
        && (raised <==> delivered && duplicate && mark != Returns)
        && log == old(log) + (if e.Some? && insert != Lost && !duplicate then [e.value] else [])
        && (published ==> rows[r].status == Published)
        && (!published && !raised && fail != Lost ==>
              rows[r].attempts == old(rows)[r].attempts + 1 && rows[r].status in {Pending, DeadLetter})
    {
      published, raised := false, false;
      var failed := true;
      if rows[r].payload.Some? && insert != Lost {
        var e := rows[r].payload.value;
        var duplicate := exists i :: 0 <= i < |log| && log[i].id == e.id;
        if !duplicate { log := log + [e]; }
        if duplicate || insert == Returns {
          if mark != Lost { rows := rows[r := PublishedRow(rows[r], now)]; }
          published := mark == Returns;
          raised := mark != Returns && duplicate;
          failed := mark != Returns && !duplicate;
        }
      }
      if failed && fail != Lost {
        rows := rows[r := FailedRow(rows[r], now)];
      }
    }

    /** The publish loop over the claimed rows, as a run of worker `w` from state `s`, among any other workers. */
    method PublishClaimed(w: WorkerId, ids: seq<RowId>, now: int, batch: int, calls: Calls, ghost s: System)
      returns (published: nat, raised: bool, ghost trace: seq<Action>)
      requires s.db == Tables() && w in s.workers && s.workers[w] == LoopWorker(ids, 0, now, batch, 0)
      requires forall k :: 0 <= k < |ids| ==> ids[k] in rows
      modifies this
      ensures Run(s, trace).db == Tables() && OwnSteps(trace, w)
      ensures PassOver(Run(s, trace), w, published) && OthersWait(s, Run(s, trace), w)
      ensures
        var result := Publishing(old(Tables()), ids, |ids|, w, now, calls);
        result == PassResult(Tables(), result.attempts, published, raised, trace)
      ensures AllReturn(calls) ==>
        !raised && Tables() == SettleAll(old(Tables()), ids, now) && published == CountDecodable(old(Tables()), ids)
    {
      hide Publishing, Attempt, AttemptTrace, SettleAll, CountDecodable, Run, OwnSteps, PassOver, OthersWait;
      published, raised, trace := 0, false, [];
      var i := 0;
      PublishingStarts(s.db, ids, w, now, calls);
      while i < |ids| && !raised
        invariant 0 <= i <= |ids|
        invariant Publishing(s.db, ids, i, w, now, calls) == PassResult(Tables(), i, published, raised, trace)
        decreases |ids| - i
      {
        var insert, mark, fail := calls(2 + 3 * i), calls(3 + 3 * i), calls(4 + 3 * i);
        PublishingStep(s.db, ids, i, w, now, calls);
        PublishingTrace(s.db, ids, i, w, now, calls);
        trace := trace + AttemptTrace(Tables(), ids[i], w, insert, mark, fail);
        var done;
        done, raised := PublishRow(ids[i], now, insert, mark, fail);
        if done { published := published + 1; }
        i := i + 1;
      }
      PublishingStops(s.db, ids, w, now, calls, i, |ids|);
      PublishingRuns(s, w, ids, |ids|, now, batch, calls);
      PassEnds(s, trace, w, ids, now, batch, published, raised, |ids|, Tables());
      if AllReturn(calls) { PublishingClean(s.db, ids, |ids|, w, now, calls); }
      assert ids[..|ids|] == ids;
    }

    /** The opening of a pass: release stale rows, then claim. */
    method ReleaseAndClaim(w: WorkerId, now: int, batch: int, release: Outcome, claim: Outcome,
                           ghost others: map<WorkerId, Worker>)
      returns (ids: seq<RowId>)
      requires IsIdle(others, w)
      modifies this
      ensures Tables() == Begun(old(Tables()), w, now, ids, release, claim)
      ensures FirstClaimable(Released(old(Tables()), now, release), ids, batch, now)
      ensures forall r :: r in ids ==> r in rows
      ensures Run(System(old(Tables()), others), Opening(w, now, batch, ids, release, claim)) ==
              System(Tables(), others[w := Claimed(now, batch, ids, claim)])
    {
      hide Run, FirstClaimable, Opening;
      if release != Lost {
        rows := map r | r in rows :: ReleasedRow(rows[r], now);
      }
      assert Tables() == Released(old(Tables()), now, release);
      ids := SelectClaimable(now, batch);
      OpeningRuns(System(old(Tables()), others), w, now, batch, ids, release, claim);
      if claim != Lost {
        rows := map r | r in rows ::
          if r in ids then rows[r].(status := Processing, owner := Some(w), updatedAt := now) else rows[r];
      }
      assert Tables() == Begun(old(Tables()), w, now, ids, release, claim);
    }

    /**
     One drain pass: release stale rows, claim, publish each claimed row. `calls(k)` is the outcome of the
     k-th database call, and `others` are any other workers, wherever each is suspended. Whatever the outcomes,
     the pass is a complete run of worker `w` among them, from its start to the end of its queue or the call
     that aborts it, and counts what that run published; when every call returns, it is a clean pass over the
     first claimable rows and counts exactly those that decode.
     */
    method DrainAuditOutbox(w: WorkerId, now: int, batch: int, calls: Calls,
                            ghost others: map<WorkerId, Worker>)
      returns (published: nat, raised: bool, ghost claimed: seq<RowId>, ghost trace: seq<Action>)
      requires IsIdle(others, w)
      modifies this
      ensures trace != [] && trace[0] == Start(w, now, batch) && OwnSteps(trace, w)
      ensures
        var before := System(old(Tables()), others);
        var after := Run(before, trace);
        after.db == Tables() && PassOver(after, w, published) && OthersWait(before, after, w)
      ensures FirstClaimable(Released(old(Tables()), now, calls(0)), claimed, batch, now)
      ensures
        var begun := Begun(old(Tables()), w, now, claimed, calls(0), calls(1));
        var opening := Opening(w, now, batch, claimed, calls(0), calls(1));
        && InTable(begun, claimed)
        && var result := if calls(1) == Returns then Publishing(begun, claimed, |claimed|, w, now, calls)
                         else PassResult(begun, 0, 0, false, []);
        && Tables() == result.db && published == result.published && raised == result.raised
        && trace == opening + result.trace
      ensures AllReturn(calls) ==>
        && !raised
        && FirstClaimable(ReleaseStale(old(Tables()), now), claimed, batch, now)
        && Tables() == CleanPass(old(Tables()), claimed, w, now)
        && published == CountDecodable(old(Tables()), claimed)
    {
      hide Run, SettleAll, CountDecodable, FirstClaimable, Claimable, Publishing;
      ghost var db := Tables();
      published, raised := 0, false;
      var ids := ReleaseAndClaim(w, now, batch, calls(0), calls(1), others);
      claimed, trace := ids, Opening(w, now, batch, ids, calls(0), calls(1));
      if calls(1) == Returns {
        ghost var s, steps := Run(System(db, others), trace), [];
        SamePayloadsSameCount(db, Tables(), ids);
        published, raised, steps := PublishClaimed(w, ids, now, batch, calls, s);
        RunConcat(System(db, others), trace, steps);
        trace := trace + steps;
      }
    }
  }
}
