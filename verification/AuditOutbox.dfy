/**
 The transactional audit outbox as a transition system.

 A step of the system is one database transaction (or one crash) of one worker;
 `Run` interleaves any number of workers, producers and crashes. Every call to the
 database can return, raise with nothing written, or raise after its commit.
 */
module AuditOutbox {
  import opened Options
  import opened OrderedSelect

  type RowId = nat     // outbox row ids are only compared for equality and order
  type WorkerId = nat

  /******* Constants; time is in microseconds *******/

  const SECOND: int := 1_000_000
  const BACKOFF_BASE_SECONDS: int := 2
  const BACKOFF_MAX_SECONDS: int := 300
  const DEAD_LETTER_THRESHOLD: nat := 10
  const STALE_PROCESSING_SECONDS: int := 300

  /******* Tables *******/

  datatype Event = Event(id: string, body: string)

  datatype Status = Pending | Processing | Published | DeadLetter

  /** `payload` is what deserialising the stored JSON yields: `None` if it does not decode. */
  datatype Row = Row(eventId: string, payload: Option<Event>, status: Status, attempts: nat,
                     availableAt: int, updatedAt: int, owner: Option<WorkerId>)

  datatype Db = Db(rows: map<RowId, Row>, log: seq<Event>)

  predicate Queued(db: Db, eventId: string) {
    exists r :: r in db.rows && db.rows[r].eventId == eventId
  }

  predicate Logged(db: Db, eventId: string) {
    exists i :: 0 <= i < |db.log| && db.log[i].id == eventId
  }

  predicate Eligible(row: Row, now: int) {
    row.status == Pending && row.availableAt <= now
  }

  predicate Stale(row: Row, now: int) {
    row.status == Processing && row.updatedAt < now - STALE_PROCESSING_SECONDS * SECOND
  }

  /******* Statements issued against the tables *******/

  function NewRow(e: Event, decodable: bool, now: int): Row {
    Row(e.id, if decodable then Some(e) else None, Pending, 0, now, now, None)
  }

  function ReleasedRow(row: Row, now: int): Row {
    if Stale(row, now) then row.(status := Pending, owner := None, updatedAt := now) else row
  }

  function ReleaseStale(db: Db, now: int): Db {
    db.(rows := map r | r in db.rows :: ReleasedRow(db.rows[r], now))
  }

  function ClaimRows(db: Db, ids: seq<RowId>, w: WorkerId, now: int): Db {
    db.(rows := map r | r in db.rows ::
      if r in ids then db.rows[r].(status := Processing, owner := Some(w), updatedAt := now) else db.rows[r])
  }

  function PublishedRow(row: Row, now: int): Row {
    row.(status := Published, updatedAt := now, owner := None)
  }

  function Pow2(n: nat): nat {
    if n == 0 then 1 else 2 * Pow2(n - 1)
  }

  function Backoff(attempts: nat): int {
    if attempts == 0 then BACKOFF_BASE_SECONDS
    else
      var delay := BACKOFF_BASE_SECONDS * Pow2(attempts - 1);
      if delay < BACKOFF_MAX_SECONDS then delay else BACKOFF_MAX_SECONDS
  }

  function FailedRow(row: Row, now: int): Row {
    var attempts := row.attempts + 1;
    if attempts >= DEAD_LETTER_THRESHOLD then
      row.(status := DeadLetter, attempts := attempts, owner := None, updatedAt := now)
    else
      row.(status := Pending, attempts := attempts, owner := None, updatedAt := now,
           availableAt := now + Backoff(attempts) * SECOND)
  }

  function UpdateRow(db: Db, r: RowId, row: Row): Db {
    db.(rows := db.rows[r := row])
  }

  /** The wait starts at two seconds and doubles with every failure up to five minutes. */
  lemma BackoffBounds(attempts: nat)
    ensures 0 < Backoff(attempts) <= 300
    ensures attempts <= 1 ==> Backoff(attempts) == 2
    ensures attempts >= 1 ==> Backoff(attempts) <= Backoff(attempts + 1)
    ensures attempts >= 1 ==> Backoff(attempts + 1) == if Backoff(attempts) < 150 then 2 * Backoff(attempts) else 300
  {
    Pow2Positive(attempts);
    if attempts >= 1 { Pow2Positive(attempts - 1); }
  }

  lemma {:induction false} Pow2Positive(n: nat)
    ensures Pow2(n) >= 1
  {
    if n > 0 { Pow2Positive(n - 1); }
  }

  /******* Workers and steps *******/

  /** How a database call ends: it returns, raises with nothing written, or raises after its commit. */
  datatype Outcome = Returns | Lost | CommittedThenRaised

  /** The outcomes of the calls of one pass, in order. */
  type Calls = nat -> Outcome

  datatype Pc = Idle | AtRelease | AtClaim | AtInsert | AtMarkPublished(duplicate: bool) | AtMarkFailed

  /** A worker inside one drain pass; `queue` holds the claimed rows not yet finished, head first. */
  datatype Worker = Worker(pc: Pc, now: int, batch: int, queue: seq<RowId>, published: nat)

  datatype System = System(db: Db, workers: map<WorkerId, Worker>)

  datatype Action =
    | Emit(row: RowId, event: Event, decodable: bool, at: int, outcome: Outcome)
    | Start(w: WorkerId, at: int, batch: int)
    | Release(w: WorkerId, outcome: Outcome)
    | Claim(w: WorkerId, ids: seq<RowId>, outcome: Outcome)
    | Insert(w: WorkerId, outcome: Outcome)
    | MarkPublished(w: WorkerId, outcome: Outcome)
    | MarkFailed(w: WorkerId, outcome: Outcome)
    | Crash(w: WorkerId)

  function Init(): System { System(Db(map[], []), map[]) }

  function IdleWorker(): Worker { Worker(Idle, 0, 0, [], 0) }

  function WorkerOf(s: System, w: WorkerId): Worker {
    if w in s.workers then s.workers[w] else IdleWorker()
  }

  function Moved(s: System, w: WorkerId, worker: Worker): System {
    s.(workers := s.workers[w := worker])
  }

  /** The loop header: on to the next claimed row, or out of the loop. */
  function NextRow(worker: Worker): Worker {
    worker.(pc := if |worker.queue| <= 1 then Idle else AtInsert,
            queue := if worker.queue == [] then [] else worker.queue[1..])
  }

  /** What one atomic claim may hand out: distinct claimable rows, at most `batch` of them. */
  predicate Claimable(db: Db, ids: seq<RowId>, batch: int, now: int) {
    && |ids| <= (if batch < 0 then 0 else batch)
    && (forall i, j :: 0 <= i < j < |ids| ==> ids[i] != ids[j])
    && (forall i :: 0 <= i < |ids| ==> ids[i] in db.rows && Eligible(db.rows[ids[i]], now))
  }

  function ApplyEmit(s: System, r: RowId, e: Event, decodable: bool, at: int, outcome: Outcome): System {
    if outcome == Lost || r in s.db.rows || Queued(s.db, e.id) then s
    else s.(db := UpdateRow(s.db, r, NewRow(e, decodable, at)))
  }

  function ApplyRelease(s: System, w: WorkerId, outcome: Outcome): System {
    var worker := WorkerOf(s, w);
    if worker.pc != AtRelease then s
    else Moved(if outcome == Lost then s else s.(db := ReleaseStale(s.db, worker.now)), w, worker.(pc := AtClaim))
  }

  function ApplyClaim(s: System, w: WorkerId, ids: seq<RowId>, outcome: Outcome): System {
    var worker := WorkerOf(s, w);
    if worker.pc != AtClaim || !Claimable(s.db, ids, worker.batch, worker.now) then s
    else
      var claimed := s.(db := ClaimRows(s.db, ids, w, worker.now));
      match outcome
      case Lost => Moved(s, w, worker.(pc := Idle))
      case CommittedThenRaised => Moved(claimed, w, worker.(pc := Idle))
      case Returns => Moved(claimed, w, worker.(pc := if ids == [] then Idle else AtInsert, queue := ids))
  }

  function ApplyInsert(s: System, w: WorkerId, outcome: Outcome): System {
    var worker := WorkerOf(s, w);
    if worker.pc != AtInsert || worker.queue == [] || worker.queue[0] !in s.db.rows then s
    else
      match s.db.rows[worker.queue[0]].payload
      case None => Moved(s, w, worker.(pc := AtMarkFailed))
      case Some(e) =>
        if outcome == Lost then Moved(s, w, worker.(pc := AtMarkFailed))
        else if Logged(s.db, e.id) then Moved(s, w, worker.(pc := AtMarkPublished(true)))
        else
          var logged := s.(db := s.db.(log := s.db.log + [e]));
          Moved(logged, w, worker.(pc := if outcome == Returns then AtMarkPublished(false) else AtMarkFailed))
  }

  function ApplyMarkPublished(s: System, w: WorkerId, outcome: Outcome): System {
    var worker := WorkerOf(s, w);
    if !worker.pc.AtMarkPublished? || worker.queue == [] || worker.queue[0] !in s.db.rows then s
    else
      var r := worker.queue[0];
      var marked := if outcome == Lost then s
                    else s.(db := UpdateRow(s.db, r, PublishedRow(s.db.rows[r], worker.now)));
      Moved(marked, w,
            if outcome == Returns then NextRow(worker).(published := worker.published + 1)
            else if worker.pc.duplicate then worker.(pc := Idle)  // raised inside the handler: the pass is over
            else worker.(pc := AtMarkFailed))
  }

  function ApplyMarkFailed(s: System, w: WorkerId, outcome: Outcome): System {
    var worker := WorkerOf(s, w);
    if worker.pc != AtMarkFailed || worker.queue == [] || worker.queue[0] !in s.db.rows then s
    else
      var r := worker.queue[0];
      var marked := if outcome == Lost then s
                    else s.(db := UpdateRow(s.db, r, FailedRow(s.db.rows[r], worker.now)));
      Moved(marked, w, NextRow(worker))
  }

  /** One step of the system; a step that is not enabled changes nothing. */
  function Apply(s: System, a: Action): System {
    match a
    case Emit(r, e, decodable, at, outcome) => ApplyEmit(s, r, e, decodable, at, outcome)
    case Start(w, at, batch) =>
      if WorkerOf(s, w).pc != Idle then s else Moved(s, w, Worker(AtRelease, at, batch, [], 0))
    case Release(w, outcome) => ApplyRelease(s, w, outcome)
    case Claim(w, ids, outcome) => ApplyClaim(s, w, ids, outcome)
    case Insert(w, outcome) => ApplyInsert(s, w, outcome)
    case MarkPublished(w, outcome) => ApplyMarkPublished(s, w, outcome)
    case MarkFailed(w, outcome) => ApplyMarkFailed(s, w, outcome)
    case Crash(w) => Moved(s, w, IdleWorker())
  }

  function Run(s: System, actions: seq<Action>): System {
    if actions == [] then s
    else Apply(Run(s, actions[..|actions| - 1]), actions[|actions| - 1])
  }

  /******* The invariant *******/

  /** One row per event id, and a payload that decodes carries its row's event id. */
  predicate RowsOk(db: Db) {
    && (forall r, q :: r in db.rows && q in db.rows && db.rows[r].eventId == db.rows[q].eventId ==> r == q)
    && (forall r :: r in db.rows && db.rows[r].payload.Some? ==> db.rows[r].payload.value.id == db.rows[r].eventId)
  }

  /** At most one log entry per event id, and every entry came from an accepted row. */
  predicate LogOk(db: Db) {
    && (forall i, j :: 0 <= i < j < |db.log| ==> db.log[i].id != db.log[j].id)
    && (forall i :: 0 <= i < |db.log| ==> Accepted(db, db.log[i]))
  }

  predicate Accepted(db: Db, e: Event) {
    exists r :: r in db.rows && db.rows[r].payload == Some(e)
  }

  predicate Delivered(db: Db, r: RowId)
    requires r in db.rows
  {
    db.rows[r].payload.Some? && db.rows[r].payload.value in db.log
  }

  predicate PublishedOk(db: Db) {
    forall r :: r in db.rows && db.rows[r].status == Published ==> Delivered(db, r)
  }

  /** The retry budget separates live rows from dead letters; exactly processing rows have an owner. */
  predicate BudgetOk(db: Db) {
    forall r :: r in db.rows ==>
      && (db.rows[r].status in {Pending, Processing} ==> db.rows[r].attempts < DEAD_LETTER_THRESHOLD)
      && (db.rows[r].status == DeadLetter ==> db.rows[r].attempts >= DEAD_LETTER_THRESHOLD)
      && (db.rows[r].status == Processing <==> db.rows[r].owner.Some?)
  }

  predicate WorkerOk(db: Db, worker: Worker) {
    && (forall k :: 0 <= k < |worker.queue| ==> worker.queue[k] in db.rows)
    && (worker.pc in {AtInsert, AtMarkFailed} || worker.pc.AtMarkPublished? ==> worker.queue != [])
    && (worker.pc.AtMarkPublished? ==> Delivered(db, worker.queue[0]))
  }

  predicate DbOk(db: Db) {
    RowsOk(db) && LogOk(db) && PublishedOk(db) && BudgetOk(db)
  }

  predicate Inv(s: System) {
    DbOk(s.db) && (forall w :: w in s.workers ==> WorkerOk(s.db, s.workers[w]))
  }

  /** Nothing accepted is lost: rows stay with their content, attempts never fall, the log only grows. */
  predicate Extends(a: Db, b: Db) {
    && a.log <= b.log
    && (forall r :: r in a.rows ==>
          && r in b.rows
          && b.rows[r].eventId == a.rows[r].eventId
          && b.rows[r].payload == a.rows[r].payload
          && a.rows[r].attempts <= b.rows[r].attempts)
  }

  /** The duplicate-key error proves that this very event, not just its id, is in the log. */
  lemma DuplicateKeyMeansDelivered(db: Db, r: RowId)
    requires RowsOk(db) && LogOk(db)
    requires r in db.rows && db.rows[r].payload.Some? && Logged(db, db.rows[r].payload.value.id)
    ensures Delivered(db, r)
  {
    var e := db.rows[r].payload.value;
    var i :| 0 <= i < |db.log| && db.log[i].id == e.id;
    assert Accepted(db, db.log[i]);
    var q :| q in db.rows && db.rows[q].payload == Some(db.log[i]);
    assert db.rows[q].eventId == db.rows[r].eventId;
  }

  /** A statement that rewrites rows in place keeps the database in order. */
  lemma RowRewriteKeeps(a: Db, b: Db)
    requires DbOk(a) && b.log == a.log && b.rows.Keys == a.rows.Keys
    requires forall r :: r in a.rows ==>
      && b.rows[r].eventId == a.rows[r].eventId
      && b.rows[r].payload == a.rows[r].payload
      && b.rows[r].attempts >= a.rows[r].attempts
    requires BudgetOk(b)
    requires forall r :: r in a.rows && b.rows[r].status == Published ==> Delivered(a, r)
    ensures DbOk(b) && Extends(a, b)
  {
    forall i | 0 <= i < |b.log| ensures Accepted(b, b.log[i]) {
      assert Accepted(a, a.log[i]);
    }
  }

  /** The same for a single row. */
  lemma UpdateRowKeeps(db: Db, r: RowId, row: Row)
    requires DbOk(db) && r in db.rows
    requires row.eventId == db.rows[r].eventId && row.payload == db.rows[r].payload
    requires row.attempts >= db.rows[r].attempts
    requires row.owner.None? && row.status != Processing
    requires row.status == Pending ==> row.attempts < DEAD_LETTER_THRESHOLD
    requires row.status == DeadLetter ==> row.attempts >= DEAD_LETTER_THRESHOLD
    requires row.status == Published ==> Delivered(db, r)
    ensures DbOk(UpdateRow(db, r, row)) && Extends(db, UpdateRow(db, r, row))
  {
    RowRewriteKeeps(db, UpdateRow(db, r, row));
  }

  lemma ExtendsItself(db: Db)
    ensures Extends(db, db)
  {}

  lemma AppendKeeps(a: Db, r: RowId, b: Db)
    requires DbOk(a)
    requires r in a.rows && a.rows[r].payload.Some? && !Logged(a, a.rows[r].payload.value.id)
    requires b == a.(log := a.log + [a.rows[r].payload.value])
    ensures DbOk(b) && Extends(a, b) && Delivered(b, r)
  {
    forall i | 0 <= i < |b.log| ensures Accepted(b, b.log[i]) {
      if i < |a.log| { assert Accepted(a, a.log[i]); }
    }
  }

  lemma EnqueueKeeps(a: Db, r: RowId, row: Row, b: Db)
    requires DbOk(a) && r !in a.rows && !Queued(a, row.eventId)
    requires row.payload.Some? ==> row.payload.value.id == row.eventId
    requires row.status == Pending && row.attempts == 0 && row.owner.None?
    requires b == UpdateRow(a, r, row)
    ensures DbOk(b) && Extends(a, b)
  {
    forall i | 0 <= i < |b.log| ensures Accepted(b, b.log[i]) {
      assert Accepted(a, a.log[i]);
      var q :| q in a.rows && a.rows[q].payload == Some(a.log[i]);
      assert b.rows[q] == a.rows[q];
    }
  }

  /** Other workers' bookkeeping survives any growth of the tables. */
  lemma MovedKeeps(s: System, db: Db, w: WorkerId, worker: Worker)
    requires Inv(s) && DbOk(db) && Extends(s.db, db) && WorkerOk(db, worker)
    ensures Inv(System(db, s.workers[w := worker]))
  {
  }

  lemma ReleaseStaleKeeps(db: Db, now: int)
    requires DbOk(db)
    ensures DbOk(ReleaseStale(db, now)) && Extends(db, ReleaseStale(db, now))
  {
    RowRewriteKeeps(db, ReleaseStale(db, now));
  }

  lemma ClaimRowsKeeps(db: Db, ids: seq<RowId>, w: WorkerId, now: int, batch: int)
    requires DbOk(db) && Claimable(db, ids, batch, now)
    ensures DbOk(ClaimRows(db, ids, w, now)) && Extends(db, ClaimRows(db, ids, w, now))
  {
    RowRewriteKeeps(db, ClaimRows(db, ids, w, now));
  }

  lemma EmitKeeps(s: System, r: RowId, e: Event, decodable: bool, at: int, outcome: Outcome)
    requires Inv(s)
    ensures var s' := ApplyEmit(s, r, e, decodable, at, outcome); Inv(s') && Extends(s.db, s'.db)
  {
    var s' := ApplyEmit(s, r, e, decodable, at, outcome);
    if s' != s { EnqueueKeeps(s.db, r, NewRow(e, decodable, at), s'.db); }
  }

  lemma ReleaseKeeps(s: System, w: WorkerId, outcome: Outcome)
    requires Inv(s)
    ensures Inv(ApplyRelease(s, w, outcome)) && Extends(s.db, ApplyRelease(s, w, outcome).db)
  {
    var worker := WorkerOf(s, w);
    if worker.pc == AtRelease {
      ReleaseStaleKeeps(s.db, worker.now);
      MovedKeeps(s, ApplyRelease(s, w, outcome).db, w, worker.(pc := AtClaim));
    }
  }

  lemma ClaimKeeps(s: System, w: WorkerId, ids: seq<RowId>, outcome: Outcome)
    requires Inv(s)
    ensures Inv(ApplyClaim(s, w, ids, outcome)) && Extends(s.db, ApplyClaim(s, w, ids, outcome).db)
  {
    var worker, s' := WorkerOf(s, w), ApplyClaim(s, w, ids, outcome);
    if worker.pc == AtClaim && Claimable(s.db, ids, worker.batch, worker.now) {
      ClaimRowsKeeps(s.db, ids, w, worker.now, worker.batch);
      MovedKeeps(s, s'.db, w, s'.workers[w]);
    }
  }

  lemma InsertKeeps(s: System, w: WorkerId, outcome: Outcome)
    requires Inv(s)
    ensures Inv(ApplyInsert(s, w, outcome)) && Extends(s.db, ApplyInsert(s, w, outcome).db)
  {
    var worker, s' := WorkerOf(s, w), ApplyInsert(s, w, outcome);
    if worker.pc == AtInsert {
      var r := worker.queue[0];
      var payload := s.db.rows[r].payload;
      if payload.Some? && outcome != Lost {
        if Logged(s.db, payload.value.id) {
          DuplicateKeyMeansDelivered(s.db, r);
        } else {
          AppendKeeps(s.db, r, s'.db);
        }
      }
      MovedKeeps(s, s'.db, w, s'.workers[w]);
    }
  }

  lemma MarkPublishedKeeps(s: System, w: WorkerId, outcome: Outcome)
    requires Inv(s)
    ensures Inv(ApplyMarkPublished(s, w, outcome)) && Extends(s.db, ApplyMarkPublished(s, w, outcome).db)
  {
    hide RowsOk, LogOk, PublishedOk, BudgetOk;
    ExtendsItself(s.db);
    var worker, s' := WorkerOf(s, w), ApplyMarkPublished(s, w, outcome);
    if worker.pc.AtMarkPublished? {
      var r := worker.queue[0];
      UpdateRowKeeps(s.db, r, PublishedRow(s.db.rows[r], worker.now));
      MovedKeeps(s, s'.db, w, s'.workers[w]);
    }
  }

  lemma MarkFailedKeeps(s: System, w: WorkerId, outcome: Outcome)
    requires Inv(s)
    ensures Inv(ApplyMarkFailed(s, w, outcome)) && Extends(s.db, ApplyMarkFailed(s, w, outcome).db)
  {
    hide RowsOk, LogOk, PublishedOk, BudgetOk, Backoff;
    ExtendsItself(s.db);
    var worker, s' := WorkerOf(s, w), ApplyMarkFailed(s, w, outcome);
    if worker.pc == AtMarkFailed {
      var r := worker.queue[0];
      UpdateRowKeeps(s.db, r, FailedRow(s.db.rows[r], worker.now));
      MovedKeeps(s, s'.db, w, s'.workers[w]);
    }
  }

  lemma StepKeeps(s: System, a: Action)
    requires Inv(s)
    ensures Inv(Apply(s, a)) && Extends(s.db, Apply(s, a).db)
  {
    hide RowsOk, LogOk, PublishedOk, BudgetOk;
    hide ApplyEmit, ApplyRelease, ApplyClaim, ApplyInsert, ApplyMarkPublished, ApplyMarkFailed;
    ExtendsItself(s.db);
    match a
    case Emit(r, e, decodable, at, outcome) => EmitKeeps(s, r, e, decodable, at, outcome);
    case Release(w, outcome) => ReleaseKeeps(s, w, outcome);
    case Claim(w, ids, outcome) => ClaimKeeps(s, w, ids, outcome);
    case Insert(w, outcome) => InsertKeeps(s, w, outcome);
    case MarkPublished(w, outcome) => MarkPublishedKeeps(s, w, outcome);
    case MarkFailed(w, outcome) => MarkFailedKeeps(s, w, outcome);
    case Start(w, at, batch) => MovedKeeps(s, s.db, w, Worker(AtRelease, at, batch, [], 0));
    case Crash(w) => MovedKeeps(s, s.db, w, IdleWorker());
  }

  /** Safety and durability over every run. */
  lemma {:induction false} RunKeeps(s: System, actions: seq<Action>)
    requires Inv(s)
    ensures Inv(Run(s, actions)) && Extends(s.db, Run(s, actions).db)
  {
    if actions != [] {
      RunKeeps(s, actions[..|actions| - 1]);
      StepKeeps(Run(s, actions[..|actions| - 1]), actions[|actions| - 1]);
    }
  }

  /**
   Outbox safety for every interleaving of producers, workers, crashes and stale releases:
   one log entry per event id, only accepted events are logged, a published row is delivered,
   and a dead letter used up its retries.
   */
  lemma Safety(actions: seq<Action>)
    ensures
      var db := Run(Init(), actions).db;
      && (forall i, j :: 0 <= i < j < |db.log| ==> db.log[i].id != db.log[j].id)
      && (forall i :: 0 <= i < |db.log| ==> Accepted(db, db.log[i]))
      && (forall r :: r in db.rows && db.rows[r].status == Published ==> Delivered(db, r))
      && (forall r :: r in db.rows && db.rows[r].status == DeadLetter ==> db.rows[r].attempts >= DEAD_LETTER_THRESHOLD)
  {
    RunKeeps(Init(), actions);
  }

  /******* Published is not final: marks carry no owner token *******/

  /** The step that reopens row `r`: a worker records a failure on it, whoever finished it meanwhile. */
  predicate LateFailure(s: System, a: Action, r: RowId) {
    && a.MarkFailed?
    && a.outcome != Lost
    && WorkerOf(s, a.w).pc == AtMarkFailed
    && WorkerOf(s, a.w).queue != []
    && WorkerOf(s, a.w).queue[0] == r
  }

  lemma StatusLeavesPublishedIff(s: System, a: Action, r: RowId)
    requires r in s.db.rows && s.db.rows[r].status == Published
    ensures r in Apply(s, a).db.rows
    ensures Apply(s, a).db.rows[r].status != Published <==> LateFailure(s, a, r)
  {
  }

  /** A published row leaves that status exactly by a late failure mark; its event stays delivered. */
  lemma PublishedReopensIff(s: System, a: Action, r: RowId)
    requires Inv(s) && r in s.db.rows && s.db.rows[r].status == Published
    ensures r in Apply(s, a).db.rows
    ensures Apply(s, a).db.rows[r].status != Published <==> LateFailure(s, a, r)
    ensures Delivered(Apply(s, a).db, r)
  {
    StatusLeavesPublishedIff(s, a, r);
    assert Inv(Apply(s, a)) && Extends(s.db, Apply(s, a).db) by { StepKeeps(s, a); }
  }

  predicate IsPublished(s: System, r: RowId) {
    r in s.db.rows && s.db.rows[r].status == Published
  }

  predicate NoLateFailure(s: System, actions: seq<Action>, r: RowId) {
    forall k :: 0 <= k < |actions| ==> !LateFailure(Run(s, actions[..k]), actions[k], r)
  }

  lemma {:induction false} PublishedUntil(s: System, actions: seq<Action>, r: RowId)
    requires Inv(s) && IsPublished(s, r) && NoLateFailure(s, actions, r)
    ensures IsPublished(Run(s, actions), r)
  {
    if actions == [] {
      assert Run(s, actions) == s;
    } else {
      hide LateFailure, Inv, Apply, Run;
      var n := |actions| - 1;
      NoLateFailureBefore(s, actions, n, r);
      PublishedUntil(s, actions[..n], r);
      RunKeeps(s, actions[..n]);
      RunPrefix(s, actions, n);
      assert actions[..n + 1] == actions;
      PublishedReopensIff(Run(s, actions[..n]), actions[n], r);
    }
  }

  lemma NoLateFailureBefore(s: System, actions: seq<Action>, n: nat, r: RowId)
    requires n <= |actions| && NoLateFailure(s, actions, r)
    ensures NoLateFailure(s, actions[..n], r)
  {
    hide LateFailure, Run;
    assert forall k :: 0 <= k < n ==> actions[..n][..k] == actions[..k] && actions[..n][k] == actions[k];
  }

  /** Over a whole run: the row is published throughout if and only if no late failure hits it. */
  lemma PublishedStaysIff(s: System, actions: seq<Action>, r: RowId)
    requires Inv(s) && IsPublished(s, r)
    ensures (forall k :: 0 <= k <= |actions| ==> IsPublished(Run(s, actions[..k]), r)) <==> NoLateFailure(s, actions, r)
  {
    hide LateFailure, Inv, Apply, Run;
    if NoLateFailure(s, actions, r) {
      forall k | 0 <= k <= |actions| ensures IsPublished(Run(s, actions[..k]), r) {
        NoLateFailureBefore(s, actions, k, r);
        PublishedUntil(s, actions[..k], r);
      }
    }
    if forall k :: 0 <= k <= |actions| ==> IsPublished(Run(s, actions[..k]), r) {
      forall k | 0 <= k < |actions| ensures !LateFailure(Run(s, actions[..k]), actions[k], r) {
        RunKeeps(s, actions[..k]);
        RunPrefix(s, actions, k);
        assert IsPublished(Run(s, actions[..k + 1]), r);
        PublishedReopensIff(Run(s, actions[..k]), actions[k], r);
      }
    }
  }

  /******* What a failure costs *******/

  /** The failure marks on row `r` that reached the database in a run from the empty system. */
  function Failures(actions: seq<Action>, r: RowId): nat {
    if actions == [] then 0
    else
      var n := |actions| - 1;
      Failures(actions[..n], r) + (if LateFailure(Run(Init(), actions[..n]), actions[n], r) then 1 else 0)
  }

  function AttemptsOf(s: System, r: RowId): nat {
    if r in s.db.rows then s.db.rows[r].attempts else 0
  }

  lemma AttemptsStep(s: System, a: Action, r: RowId)
    requires Inv(s)
    ensures AttemptsOf(Apply(s, a), r) == AttemptsOf(s, r) + (if LateFailure(s, a, r) then 1 else 0)
  {
    hide RowsOk, LogOk, PublishedOk, BudgetOk, Delivered, Logged, Queued, Backoff, Claimable;
  }

  /** Over every run: the attempts of a row are its failure marks that were committed, no more and no fewer. */
  lemma {:induction false} AttemptsCountFailures(actions: seq<Action>, r: RowId)
    ensures AttemptsOf(Run(Init(), actions), r) == Failures(actions, r)
  {
    if actions != [] {
      hide Inv, Apply, LateFailure;
      var before, last := actions[..|actions| - 1], actions[|actions| - 1];
      AttemptsCountFailures(before, r);
      InitInv();
      RunKeeps(Init(), before);
      AttemptsStep(Run(Init(), before), last, r);
    }
  }

  /** Seconds until the retry after the first, second, ... failure. */
  const WAITS: seq<int> := [2, 4, 8, 16, 32, 64, 128, 256, 300]

  lemma BackoffIs(attempts: nat)
    requires 1 <= attempts <= 9
    ensures Backoff(attempts) == WAITS[attempts - 1]
  {
  }

  lemma FailureMarks(s: System, a: Action, r: RowId)
    requires Inv(s) && LateFailure(s, a, r)
    ensures r in s.db.rows && r in Apply(s, a).db.rows
    ensures Apply(s, a).db.rows[r] == FailedRow(s.db.rows[r], WorkerOf(s, a.w).now)
  {
    hide RowsOk, LogOk, PublishedOk, BudgetOk, Delivered, FailedRow;
  }

  /**
   Over every run: the tenth committed failure mark of a row makes it a dead letter, every earlier one
   sends it back to wait out its turn of the doubling backoff, counted from the worker's clock.
   */
  lemma TenthFailureIsDeadLetter(actions: seq<Action>, k: nat, r: RowId)
    requires k < |actions| && LateFailure(Run(Init(), actions[..k]), actions[k], r)
    ensures r in Run(Init(), actions[..k + 1]).db.rows
    ensures
      var row, n := Run(Init(), actions[..k + 1]).db.rows[r], Failures(actions[..k + 1], r);
      var clock := WorkerOf(Run(Init(), actions[..k]), actions[k].w).now;
      && row.attempts == n >= 1 && row.owner == None && row.updatedAt == clock
      && row.status == (if n >= 10 then DeadLetter else Pending)
      && (n < 10 ==> row.availableAt == clock + WAITS[n - 1] * SECOND)
  {
    hide Inv, Apply, LateFailure, Run;
    InitInv();
    RunKeeps(Init(), actions[..k]);
    RunPrefix(Init(), actions, k);
    FailureMarks(Run(Init(), actions[..k]), actions[k], r);
    AttemptsCountFailures(actions[..k + 1], r);
    var n := Failures(actions[..k + 1], r);
    if n < 10 { BackoffIs(n); }
  }

  /** The claim of row `r` reaches the database. */
  predicate Claims(s: System, a: Action, r: RowId) {
    && a.Claim?
    && a.outcome != Lost
    && WorkerOf(s, a.w).pc == AtClaim
    && Claimable(s.db, a.ids, WorkerOf(s, a.w).batch, WorkerOf(s, a.w).now)
    && r in a.ids
  }

  predicate DueFrom(s: System, r: RowId, time: int) {
    r in s.db.rows && s.db.rows[r].availableAt == time
  }

  lemma DueStays(s: System, a: Action, r: RowId, time: int)
    requires DueFrom(s, r, time) && !LateFailure(s, a, r)
    ensures DueFrom(Apply(s, a), r, time)
  {
  }

  predicate UnmarkedBetween(actions: seq<Action>, k: nat, m: nat, r: RowId)
    requires m <= |actions|
  {
    forall j :: k < j < m ==> !LateFailure(Run(Init(), actions[..j]), actions[j], r)
  }

  lemma {:induction false} DueUntil(actions: seq<Action>, k: nat, m: nat, r: RowId, time: int)
    requires k < m <= |actions| && DueFrom(Run(Init(), actions[..k + 1]), r, time) && UnmarkedBetween(actions, k, m, r)
    ensures DueFrom(Run(Init(), actions[..m]), r, time)
    decreases m
  {
    if m > k + 1 {
      hide Apply, LateFailure, Run, DueFrom;
      DueUntil(actions, k, m - 1, r, time);
      RunPrefix(Init(), actions, m - 1);
      DueStays(Run(Init(), actions[..m - 1]), actions[m - 1], r, time);
    }
  }

  lemma {:induction false} FailuresBetween(actions: seq<Action>, k: nat, m: nat, r: RowId)
    requires k < m <= |actions| && UnmarkedBetween(actions, k, m, r)
    ensures Failures(actions[..m], r) == Failures(actions[..k + 1], r)
    decreases m
  {
    if m > k + 1 {
      hide Apply, LateFailure, Run;
      FailuresBetween(actions, k, m - 1, r);
      assert actions[..m][..m - 1] == actions[..m - 1];
    }
  }

  lemma ClaimedWasDue(s: System, a: Action, r: RowId)
    requires Inv(s) && Claims(s, a, r)
    ensures r in s.db.rows && s.db.rows[r].status == Pending && s.db.rows[r].attempts < 10
    ensures s.db.rows[r].availableAt <= WorkerOf(s, a.w).now
  {
    hide RowsOk, LogOk, PublishedOk, Delivered;
    var i :| 0 <= i < |a.ids| && a.ids[i] == r;
    assert Eligible(s.db.rows[a.ids[i]], WorkerOf(s, a.w).now);
  }

  /** Over every run: the next claim after a failure mark waits out the backoff, and after the tenth there is none. */
  lemma RetryWaits(actions: seq<Action>, k: nat, m: nat, r: RowId)
    requires k < m < |actions| && UnmarkedBetween(actions, k, m, r)
    requires LateFailure(Run(Init(), actions[..k]), actions[k], r) && Claims(Run(Init(), actions[..m]), actions[m], r)
    ensures
      var n := Failures(actions[..k + 1], r);
      && 1 <= n < 10
      && WorkerOf(Run(Init(), actions[..m]), actions[m].w).now >=
         WorkerOf(Run(Init(), actions[..k]), actions[k].w).now + WAITS[n - 1] * SECOND
  {
    hide Inv, Apply, LateFailure, Run, Claims, WorkerOf;
    TenthFailureIsDeadLetter(actions, k, r);
    InitInv();
    RunKeeps(Init(), actions[..m]);
    ClaimedWasDue(Run(Init(), actions[..m]), actions[m], r);
    AttemptsCountFailures(actions[..m], r);
    FailuresBetween(actions, k, m, r);
    DueUntil(actions, k, m, r, Run(Init(), actions[..k + 1]).db.rows[r].availableAt);
  }

  /******* Why a row is marked failed, or published *******/

  /** The event of the row at the head of the worker's queue, if it decodes. */
  function HeadEvent(s: System, w: WorkerId): Option<Event> {
    var queue := WorkerOf(s, w).queue;
    if queue != [] && queue[0] in s.db.rows then s.db.rows[queue[0]].payload else None
  }

  /** The row does not decode, or the insert raised for another reason than a duplicate, or a first mark raised. */
  predicate CallFails(s: System, a: Action, w: WorkerId) {
    || (a.Insert? && a.w == w && WorkerOf(s, w).pc == AtInsert
        && var e := HeadEvent(s, w);
           e.None? || a.outcome == Lost || (a.outcome == CommittedThenRaised && !Logged(s.db, e.value.id)))
    || (a.MarkPublished? && a.w == w && WorkerOf(s, w).pc == AtMarkPublished(false) && a.outcome != Returns)
  }

  /** The insert returned, or raised because the event is in the log already. */
  predicate InsertDelivers(s: System, a: Action, w: WorkerId) {
    && a.Insert? && a.w == w && WorkerOf(s, w).pc == AtInsert && HeadEvent(s, w).Some?
    && (a.outcome == Returns || (a.outcome != Lost && Logged(s.db, HeadEvent(s, w).value.id)))
  }

  /**
   A worker comes to mark a row failed exactly after a call on it failed, and to mark it published exactly
   after its event got into the log; it leaves these points by the mark or by a crash only.
   */
  lemma MarksHaveCauses(s: System, a: Action, w: WorkerId)
    requires Inv(s)
    ensures WorkerOf(Apply(s, a), w).pc == AtMarkFailed <==>
            CallFails(s, a, w)
            || (WorkerOf(s, w).pc == AtMarkFailed && a != Crash(w) && !(a.MarkFailed? && a.w == w))
    ensures WorkerOf(Apply(s, a), w).pc.AtMarkPublished? <==>
            InsertDelivers(s, a, w)
            || (WorkerOf(s, w).pc.AtMarkPublished? && a != Crash(w) && !(a.MarkPublished? && a.w == w))
  {
    hide *;
    FailedMarksHaveCauses(s, a, w);
    PublishedMarksHaveCauses(s, a, w);
  }

  lemma FailedMarksHaveCauses(s: System, a: Action, w: WorkerId)
    requires Inv(s)
    ensures WorkerOf(Apply(s, a), w).pc == AtMarkFailed <==>
            CallFails(s, a, w)
            || (WorkerOf(s, w).pc == AtMarkFailed && a != Crash(w) && !(a.MarkFailed? && a.w == w))
  {
    hide RowsOk, LogOk, PublishedOk, BudgetOk, Delivered, Logged, Queued, Backoff, Claimable, Stale;
  }

  lemma PublishedMarksHaveCauses(s: System, a: Action, w: WorkerId)
    requires Inv(s)
    ensures WorkerOf(Apply(s, a), w).pc.AtMarkPublished? <==>
            InsertDelivers(s, a, w)
            || (WorkerOf(s, w).pc.AtMarkPublished? && a != Crash(w) && !(a.MarkPublished? && a.w == w))
  {
    hide RowsOk, LogOk, PublishedOk, BudgetOk, Delivered, Logged, Queued, Backoff, Claimable, Stale;
  }

  /** After the first `n` actions the worker is about to mark a row failed. */
  predicate MarksNext(actions: seq<Action>, n: nat, w: WorkerId)
    requires n <= |actions|
  {
    WorkerOf(Run(Init(), actions[..n]), w).pc == AtMarkFailed
  }

  predicate FailsAt(actions: seq<Action>, k: nat, w: WorkerId)
    requires k < |actions|
  {
    CallFails(Run(Init(), actions[..k]), actions[k], w)
  }

  lemma MarksNextStep(actions: seq<Action>, n: nat, w: WorkerId)
    requires n < |actions| && MarksNext(actions, n + 1, w)
    ensures FailsAt(actions, n, w) || MarksNext(actions, n, w)
  {
    hide Run, Inv, Apply, CallFails, WorkerOf;
    InitInv();
    RunKeeps(Init(), actions[..n]);
    RunPrefix(Init(), actions, n);
    MarksHaveCauses(Run(Init(), actions[..n]), actions[n], w);
  }

  /** Over every run: a worker about to mark a row failed has been so since a call on that row failed. */
  lemma {:induction false} FailureHasCause(actions: seq<Action>, n: nat, w: WorkerId)
    requires n <= |actions| && MarksNext(actions, n, w)
    ensures exists k :: 0 <= k < n && FailsAt(actions, k, w) && forall j :: k < j <= n ==> MarksNext(actions, j, w)
    decreases n
  {
    assert n > 0;
    hide MarksNext, FailsAt;
    MarksNextStep(actions, n - 1, w);
    if !FailsAt(actions, n - 1, w) {
      FailureHasCause(actions, n - 1, w);
      var k :| 0 <= k < n - 1 && FailsAt(actions, k, w) && forall j :: k < j <= n - 1 ==> MarksNext(actions, j, w);
      assert forall j :: k < j <= n ==> MarksNext(actions, j, w);
    }
  }

  /******* Who wrote a row last, and how much a worker holds *******/

  /** The clock by which the acting producer or worker writes. */
  function ClockOf(s: System, a: Action): int {
    if a.Emit? then a.at else WorkerOf(s, a.w).now
  }

  predicate SameRow(s: System, s': System, r: RowId) {
    r in s.db.rows && r in s'.db.rows && s'.db.rows[r] == s.db.rows[r]
  }

  /** Whatever changes a row leaves the time of the change on it. */
  lemma ChangesAreStamped(s: System, a: Action, r: RowId)
    requires r in Apply(s, a).db.rows
    ensures SameRow(s, Apply(s, a), r) || Apply(s, a).db.rows[r].updatedAt == ClockOf(s, a)
  {
    hide Claimable, Logged, Queued, Backoff, Stale;
  }

  predicate WithinBatch(worker: Worker) {
    |worker.queue| <= if worker.batch < 0 then 0 else worker.batch
  }

  lemma StepWithinBatch(s: System, a: Action, w: WorkerId)
    requires WithinBatch(WorkerOf(s, w))
    ensures WithinBatch(WorkerOf(Apply(s, a), w))
  {
    hide Logged, Queued, Backoff, Stale, Eligible;
  }

  /** Over every run: no worker ever holds more rows than its batch allows. */
  lemma {:induction false} QueueWithinBatch(actions: seq<Action>, w: WorkerId)
    ensures WithinBatch(WorkerOf(Run(Init(), actions), w))
  {
    if actions != [] {
      hide Apply, WithinBatch;
      QueueWithinBatch(actions[..|actions| - 1], w);
      StepWithinBatch(Run(Init(), actions[..|actions| - 1]), actions[|actions| - 1], w);
    }
  }

  /******* How long a claim is respected *******/

  /** Row `r` is being processed for `w` since `time`. */
  predicate HeldSince(s: System, r: RowId, w: WorkerId, time: int) {
    r in s.db.rows && s.db.rows[r].status == Processing && s.db.rows[r].owner == Some(w)
    && s.db.rows[r].updatedAt == time
  }

  predicate IsProcessing(s: System, r: RowId) {
    r in s.db.rows && s.db.rows[r].status == Processing
  }

  lemma ClaimHolds(s: System, a: Action, r: RowId)
    requires Claims(s, a, r)
    ensures HeldSince(Apply(s, a), r, a.w, WorkerOf(s, a.w).now)
  {
    var i :| 0 <= i < |a.ids| && a.ids[i] == r;
    assert a.ids[i] in s.db.rows;
  }

  lemma HeldStays(s: System, a: Action, r: RowId, w: WorkerId, time: int)
    requires HeldSince(s, r, w, time) && IsProcessing(Apply(s, a), r)
    ensures HeldSince(Apply(s, a), r, w, time)
  {
  }

  lemma {:induction false} HeldUntil(actions: seq<Action>, k: nat, m: nat, r: RowId)
    requires k < m <= |actions| && Claims(Run(Init(), actions[..k]), actions[k], r)
    requires forall j :: k < j <= m ==> IsProcessing(Run(Init(), actions[..j]), r)
    ensures HeldSince(Run(Init(), actions[..m]), r, actions[k].w, WorkerOf(Run(Init(), actions[..k]), actions[k].w).now)
    decreases m
  {
    hide Apply, Run, Claimable, WorkerOf, HeldSince, IsProcessing;
    RunPrefix(Init(), actions, m - 1);
    if m > k + 1 {
      HeldUntil(actions, k, m - 1, r);
      HeldStays(Run(Init(), actions[..m - 1]), actions[m - 1], r, actions[k].w,
                WorkerOf(Run(Init(), actions[..k]), actions[k].w).now);
    } else {
      ClaimHolds(Run(Init(), actions[..k]), actions[k], r);
    }
  }

  /**
   Over every run: a release of stale rows takes a row away from the worker that claimed it if and only if
   more than five minutes lie between the clocks of the claim and of the release.
   */
  lemma ReleasedAfterFiveMinutes(actions: seq<Action>, k: nat, m: nat, r: RowId)
    requires k < m < |actions| && Claims(Run(Init(), actions[..k]), actions[k], r)
    requires forall j :: k < j <= m ==> IsProcessing(Run(Init(), actions[..j]), r)
    requires actions[m].Release? && actions[m].outcome != Lost
    requires WorkerOf(Run(Init(), actions[..m]), actions[m].w).pc == AtRelease
    ensures r in Run(Init(), actions[..m + 1]).db.rows
    ensures
      var claimed := WorkerOf(Run(Init(), actions[..k]), actions[k].w).now;
      var released := WorkerOf(Run(Init(), actions[..m]), actions[m].w).now;
      Run(Init(), actions[..m + 1]).db.rows[r].status ==
      if released - claimed > 300 * SECOND then Pending else Processing
  {
    hide Run, Claims;
    HeldUntil(actions, k, m, r);
    RunPrefix(Init(), actions, m);
  }

  /******* When published is final: prompt workers hold their rows alone *******/

  predicate Holding(worker: Worker) {
    worker.pc == AtInsert || worker.pc.AtMarkPublished? || worker.pc == AtMarkFailed
  }

  predicate Holds(s: System, w: WorkerId, r: RowId) {
    w in s.workers && Holding(s.workers[w]) && r in s.workers[w].queue
  }

  /** The row is being processed by this worker since its claim. */
  predicate Owns(row: Row, w: WorkerId, worker: Worker) {
    row.status == Processing && row.owner == Some(w) && row.updatedAt == worker.now
  }

  /**
   A worker owns the rows of its queue. Unless `strict`, the first one may be published already, by a mark
   that was committed and then raised.
   */
  predicate OwnsQueue(strict: bool, db: Db, w: WorkerId, worker: Worker) {
    Holding(worker) ==>
      && (forall i, j :: 0 <= i < j < |worker.queue| ==> worker.queue[i] != worker.queue[j])
      && (forall k :: 0 <= k < |worker.queue| ==>
            && worker.queue[k] in db.rows
            && (Owns(db.rows[worker.queue[k]], w, worker)
                || (!strict && k == 0 && worker.pc == AtMarkFailed && db.rows[worker.queue[k]].status == Published)))
  }

  ghost predicate Exclusive(strict: bool, s: System) {
    && (forall w :: w in s.workers ==> OwnsQueue(strict, s.db, w, s.workers[w]))
    && (forall v, w, r :: Holds(s, v, r) && Holds(s, w, r) ==> v == w)
  }

  /** A release comes no later than the stale limit after the claim of any worker still at its rows. */
  predicate Prompt(s: System, a: Action) {
    a.Release? && WorkerOf(s, a.w).pc == AtRelease ==>
      forall w :: w in s.workers && Holding(s.workers[w]) ==>
        WorkerOf(s, a.w).now <= s.workers[w].now + STALE_PROCESSING_SECONDS * SECOND
  }

  /** A published mark that is committed and then raises, so that the worker goes on to mark the row failed. */
  predicate Botched(s: System, a: Action) {
    a.MarkPublished? && a.outcome == CommittedThenRaised && WorkerOf(s, a.w).pc == AtMarkPublished(false)
  }

  /** The rows of a worker's queue are as before. */
  predicate QueueKept(a: Db, b: Db, worker: Worker) {
    Holding(worker) ==> forall k :: 0 <= k < |worker.queue| && worker.queue[k] in a.rows ==>
      worker.queue[k] in b.rows && b.rows[worker.queue[k]] == a.rows[worker.queue[k]]
  }

  lemma OwnsKept(strict: bool, a: Db, b: Db, w: WorkerId, worker: Worker)
    requires OwnsQueue(strict, a, w, worker) && QueueKept(a, b, worker)
    ensures OwnsQueue(strict, b, w, worker)
  {}

  /** One worker moves and keeps, sheds or takes rows that nobody else holds. */
  lemma ExclusiveMoves(strict: bool, s: System, db: Db, w: WorkerId, worker: Worker)
    requires Exclusive(strict, s) && OwnsQueue(strict, db, w, worker)
    requires forall v :: v in s.workers && v != w ==> QueueKept(s.db, db, s.workers[v])
    requires Holding(worker) ==> forall v, r :: r in worker.queue && Holds(s, v, r) ==> v == w
    ensures Exclusive(strict, System(db, s.workers[w := worker]))
  {
    var s' := System(db, s.workers[w := worker]);
    hide OwnsQueue, QueueKept, Holding;
    forall v | v in s'.workers ensures OwnsQueue(strict, db, v, s'.workers[v]) {
      if v != w { OwnsKept(strict, s.db, db, v, s.workers[v]); }
    }
    forall u, v, r | Holds(s', u, r) && Holds(s', v, r) ensures u == v {
      if u != w { assert Holds(s, u, r); }
      if v != w { assert Holds(s, v, r); }
    }
  }

  /** Rewriting the first row of a worker's queue concerns nobody else. */
  lemma OthersKept(strict: bool, s: System, w: WorkerId, row: Row)
    requires Exclusive(strict, s) && w in s.workers && Holding(s.workers[w]) && s.workers[w].queue != []
    ensures
      var db := UpdateRow(s.db, s.workers[w].queue[0], row);
      forall v :: v in s.workers && v != w ==> QueueKept(s.db, db, s.workers[v])
  {
    var r := s.workers[w].queue[0];
    assert Holds(s, w, r);
    forall v | v in s.workers && v != w ensures QueueKept(s.db, UpdateRow(s.db, r, row), s.workers[v]) {
      if Holding(s.workers[v]) {
        forall k | 0 <= k < |s.workers[v].queue| ensures s.workers[v].queue[k] != r {
          if s.workers[v].queue[k] == r { assert Holds(s, v, r); }
        }
      }
    }
  }

  lemma EmitExclusive(strict: bool, s: System, r: RowId, e: Event, decodable: bool, at: int, outcome: Outcome)
    requires Exclusive(strict, s)
    ensures Exclusive(strict, ApplyEmit(s, r, e, decodable, at, outcome))
  {
    var s' := ApplyEmit(s, r, e, decodable, at, outcome);
    forall w | w in s.workers ensures OwnsQueue(strict, s'.db, w, s.workers[w]) {
      OwnsKept(strict, s.db, s'.db, w, s.workers[w]);
    }
    forall v, w, q | Holds(s', v, q) && Holds(s', w, q) ensures v == w {
      assert Holds(s, v, q) && Holds(s, w, q);
    }
  }

  /** A worker at rest holds nothing. */
  lemma RestExclusive(strict: bool, s: System, w: WorkerId, worker: Worker)
    requires Exclusive(strict, s) && !Holding(worker)
    ensures Exclusive(strict, Moved(s, w, worker))
  {
    hide Exclusive;
    ExclusiveMoves(strict, s, s.db, w, worker);
  }

  lemma ReleaseExclusive(strict: bool, s: System, w: WorkerId, outcome: Outcome)
    requires Exclusive(strict, s) && Prompt(s, Release(w, outcome))
    ensures Exclusive(strict, ApplyRelease(s, w, outcome))
  {
    var worker := WorkerOf(s, w);
    if worker.pc == AtRelease {
      var db := if outcome == Lost then s.db else ReleaseStale(s.db, worker.now);
      forall v | v in s.workers ensures QueueKept(s.db, db, s.workers[v]) {
        assert OwnsQueue(strict, s.db, v, s.workers[v]);
      }
      hide Exclusive, QueueKept;
      ExclusiveMoves(strict, s, db, w, worker.(pc := AtClaim));
    }
  }

  lemma ClaimExclusive(strict: bool, s: System, w: WorkerId, ids: seq<RowId>, outcome: Outcome)
    requires Exclusive(strict, s)
    ensures Exclusive(strict, ApplyClaim(s, w, ids, outcome))
  {
    var worker, s' := WorkerOf(s, w), ApplyClaim(s, w, ids, outcome);
    if worker.pc == AtClaim && Claimable(s.db, ids, worker.batch, worker.now) {
      forall v, r | Holds(s, v, r) ensures r !in ids {
        assert OwnsQueue(strict, s.db, v, s.workers[v]);
        assert forall k :: 0 <= k < |ids| ==> s.db.rows[ids[k]].status == Pending;
      }
      var db := if outcome == Lost then s.db else ClaimRows(s.db, ids, w, worker.now);
      forall v | v in s.workers && v != w ensures QueueKept(s.db, db, s.workers[v]) {
        if Holding(s.workers[v]) {
          forall k | 0 <= k < |s.workers[v].queue| ensures s.workers[v].queue[k] !in ids {
            assert Holds(s, v, s.workers[v].queue[k]);
          }
        }
      }
      assert OwnsQueue(strict, db, w, s'.workers[w]);
      hide Exclusive, QueueKept, OwnsQueue;
      ExclusiveMoves(strict, s, db, w, s'.workers[w]);
    }
  }

  lemma InsertExclusive(strict: bool, s: System, w: WorkerId, outcome: Outcome)
    requires Exclusive(strict, s)
    ensures Exclusive(strict, ApplyInsert(s, w, outcome))
  {
    var worker, s' := WorkerOf(s, w), ApplyInsert(s, w, outcome);
    if s' != s {
      assert w in s.workers && OwnsQueue(strict, s.db, w, worker);
      forall v, r | r in worker.queue && Holds(s, v, r) ensures v == w { assert Holds(s, w, r); }
      hide Exclusive;
      ExclusiveMoves(strict, s, s'.db, w, s'.workers[w]);
    }
  }

  /** A worker that is done with its first row still owns the others. */
  lemma NextOwns(strict: bool, db: Db, w: WorkerId, worker: Worker, row: Row)
    requires OwnsQueue(strict, db, w, worker) && Holding(worker) && worker.queue != []
    ensures OwnsQueue(strict, UpdateRow(db, worker.queue[0], row), w, NextRow(worker))
    ensures OwnsQueue(strict, db, w, NextRow(worker))
  {
    assert forall k :: 0 <= k < |worker.queue| - 1 ==> worker.queue[1..][k] == worker.queue[k + 1];
  }

  lemma MarkPublishedExclusive(strict: bool, s: System, w: WorkerId, outcome: Outcome)
    requires Exclusive(strict, s) && (strict ==> !Botched(s, MarkPublished(w, outcome)))
    ensures Exclusive(strict, ApplyMarkPublished(s, w, outcome))
  {
    var worker, s' := WorkerOf(s, w), ApplyMarkPublished(s, w, outcome);
    if worker.pc.AtMarkPublished? && worker.queue != [] && worker.queue[0] in s.db.rows {
      var row := PublishedRow(s.db.rows[worker.queue[0]], worker.now);
      assert w in s.workers && OwnsQueue(strict, s.db, w, worker);
      OthersKept(strict, s, w, row);
      NextOwns(strict, s.db, w, worker, row);
      forall v, r | r in worker.queue && Holds(s, v, r) ensures v == w { assert Holds(s, w, r); }
      assert OwnsQueue(strict, s'.db, w, s'.workers[w]);
      hide Exclusive, OwnsQueue;
      ExclusiveMoves(strict, s, s'.db, w, s'.workers[w]);
    }
  }

  lemma MarkFailedExclusive(strict: bool, s: System, w: WorkerId, outcome: Outcome)
    requires Exclusive(strict, s)
    ensures Exclusive(strict, ApplyMarkFailed(s, w, outcome))
  {
    hide FailedRow;
    var worker, s' := WorkerOf(s, w), ApplyMarkFailed(s, w, outcome);
    if worker.pc == AtMarkFailed && worker.queue != [] && worker.queue[0] in s.db.rows {
      var row := FailedRow(s.db.rows[worker.queue[0]], worker.now);
      assert w in s.workers && OwnsQueue(strict, s.db, w, worker);
      OthersKept(strict, s, w, row);
      NextOwns(strict, s.db, w, worker, row);
      forall v, r | r in worker.queue && Holds(s, v, r) ensures v == w { assert Holds(s, w, r); }
      hide Exclusive, OwnsQueue;
      ExclusiveMoves(strict, s, s'.db, w, s'.workers[w]);
    }
  }

  lemma StepExclusive(strict: bool, s: System, a: Action)
    requires Exclusive(strict, s) && Prompt(s, a) && (strict ==> !Botched(s, a))
    ensures Exclusive(strict, Apply(s, a))
  {
    hide Exclusive, ApplyEmit, ApplyRelease, ApplyClaim, ApplyInsert, ApplyMarkPublished, ApplyMarkFailed;
    match a {
      case Emit(r, e, decodable, at, outcome) => EmitExclusive(strict, s, r, e, decodable, at, outcome);
      case Start(w, at, batch) => RestExclusive(strict, s, w, Worker(AtRelease, at, batch, [], 0));
      case Release(w, outcome) => ReleaseExclusive(strict, s, w, outcome);
      case Claim(w, ids, outcome) => ClaimExclusive(strict, s, w, ids, outcome);
      case Insert(w, outcome) => InsertExclusive(strict, s, w, outcome);
      case MarkPublished(w, outcome) => MarkPublishedExclusive(strict, s, w, outcome);
      case MarkFailed(w, outcome) => MarkFailedExclusive(strict, s, w, outcome);
      case Crash(w) => RestExclusive(strict, s, w, IdleWorker());
    }
  }

  predicate AllPrompt(actions: seq<Action>) {
    forall k :: 0 <= k < |actions| ==> Prompt(Run(Init(), actions[..k]), actions[k])
  }

  predicate NoneBotched(actions: seq<Action>) {
    forall k :: 0 <= k < |actions| ==> !Botched(Run(Init(), actions[..k]), actions[k])
  }

  lemma {:induction false} RunExclusive(strict: bool, actions: seq<Action>)
    requires AllPrompt(actions) && (strict ==> NoneBotched(actions))
    ensures Exclusive(strict, Run(Init(), actions))
  {
    if actions != [] {
      hide Apply, Exclusive, Prompt, Botched;
      var n := |actions| - 1;
      var before := actions[..n];
      assert forall k :: 0 <= k < n ==> before[..k] == actions[..k] && before[k] == actions[k];
      RunExclusive(strict, before);
      StepExclusive(strict, Run(Init(), before), actions[n]);
    }
  }

  /** While workers are prompt, a row is held by at most one of them, whatever calls are lost and whoever crashes. */
  lemma OneHolder(actions: seq<Action>, v: WorkerId, w: WorkerId, r: RowId)
    requires AllPrompt(actions)
    ensures Holds(Run(Init(), actions), v, r) && Holds(Run(Init(), actions), w, r) ==> v == w
  {
    RunExclusive(false, actions);
  }

  /**
   Over every run with prompt workers and no published mark that commits and then raises, a row once
   published stays published.
   */
  lemma {:induction false} PublishedIsFinal(actions: seq<Action>, i: nat, r: RowId)
    requires AllPrompt(actions) && NoneBotched(actions)
    requires i <= |actions| && IsPublished(Run(Init(), actions[..i]), r)
    ensures IsPublished(Run(Init(), actions), r)
  {
    hide Run, Apply, AllPrompt, NoneBotched, IsPublished;
    if i < |actions| {
      var n := |actions| - 1;
      PrefixPrompt(actions, n);
      assert actions[..n][..i] == actions[..i] && actions[..n + 1] == actions;
      PublishedIsFinal(actions[..n], i, r);
      RunExclusive(true, actions[..n]);
      RunPrefix(Init(), actions, n);
      PublishedStep(actions[..n], actions[n], r);
    } else {
      assert actions[..i] == actions;
    }
  }

  lemma PrefixPrompt(actions: seq<Action>, n: nat)
    requires n <= |actions| && AllPrompt(actions) && NoneBotched(actions)
    ensures AllPrompt(actions[..n]) && NoneBotched(actions[..n])
  {
    hide Run, Prompt, Botched;
    assert forall k :: 0 <= k < n ==> actions[..n][..k] == actions[..k] && actions[..n][k] == actions[k];
  }

  lemma PublishedStep(actions: seq<Action>, a: Action, r: RowId)
    requires Exclusive(true, Run(Init(), actions)) && IsPublished(Run(Init(), actions), r)
    ensures IsPublished(Apply(Run(Init(), actions), a), r)
  {
    var s := Run(Init(), actions);
    InitInv();
    RunKeeps(Init(), actions);
    hide Run, Apply, Exclusive, LateFailure, Inv;
    NoLateFailureNow(s, a, r);
    PublishedReopensIff(s, a, r);
  }

  lemma InitInv()
    ensures Inv(Init())
  {}

  lemma NoLateFailureNow(s: System, a: Action, r: RowId)
    requires Exclusive(true, s) && IsPublished(s, r)
    ensures !LateFailure(s, a, r)
  {
  }

  /** Event `e` is queued as row 0; worker 1 claims it, fails to insert it, and stalls. */
  function SlowWorker(e: Event): seq<Action> {
    [Emit(0, e, true, 0, Returns), Start(1, 0, 1), Release(1, Returns), Claim(1, [0], Returns), Insert(1, Lost)]
  }

  /** Worker 2 releases the stale row, claims it, and publishes it. */
  function FastWorker(at: int): seq<Action> {
    [Start(2, at, 1), Release(2, Returns), Claim(2, [0], Returns), Insert(2, Returns), MarkPublished(2, Returns)]
  }

  /** Worker 1 holds row 0 and is about to record a failed insert. */
  function StalledState(e: Event): System {
    System(Db(map[0 := NewRow(e, true, 0).(status := Processing, owner := Some(1))], []),
           map[1 := Worker(AtMarkFailed, 0, 1, [0], 0)])
  }

  /** The same, after worker 2 published the row. */
  function OvertakenState(e: Event, at: int): System {
    System(Db(map[0 := NewRow(e, true, 0).(status := Published, updatedAt := at)], [e]),
           map[1 := Worker(AtMarkFailed, 0, 1, [0], 0), 2 := Worker(Idle, at, 1, [], 1)])
  }

  /**
   Published is not final. After the slow and the fast worker, row 0 is published; worker 1 then records
   its failure and the row is pending again, although its event is in the log.
   */
  lemma SlowWorkerReopens(e: Event, at: int)
    requires at > STALE_PROCESSING_SECONDS * SECOND
    ensures
      var s := Run(Run(Init(), SlowWorker(e)), FastWorker(at));
      && s.db.rows.Keys == {0} && s.db.rows[0].status == Published
      && LateFailure(s, MarkFailed(1, Returns), 0)
      && ApplyMarkFailed(s, 1, Returns).db == Db(map[0 := FailedRow(s.db.rows[0], 0)], [e])
      && FailedRow(s.db.rows[0], 0).status == Pending
  {
    SlowWorkerStalls(e);
    FastWorkerPublishes(e, at);
    assert WorkerOf(OvertakenState(e, at), 1) == Worker(AtMarkFailed, 0, 1, [0], 0);
  }

  lemma RunFive(s: System, p: seq<Action>)
    requires |p| == 5
    ensures Run(s, p) == Apply(Apply(Apply(Apply(Apply(s, p[0]), p[1]), p[2]), p[3]), p[4])
  {
    RunPrefix(s, p, 0);
    RunPrefix(s, p, 1);
    RunPrefix(s, p, 2);
    RunPrefix(s, p, 3);
    RunPrefix(s, p, 4);
    assert p[..5] == p;
  }

  lemma RunPrefix(s: System, p: seq<Action>, k: nat)
    requires k < |p|
    ensures Run(s, p[..k + 1]) == Apply(Run(s, p[..k]), p[k])
  {
    assert p[..k + 1][..k] == p[..k];
  }

  lemma RunSnoc(s: System, actions: seq<Action>, a: Action)
    ensures Run(s, actions + [a]) == Apply(Run(s, actions), a)
  {
    assert (actions + [a])[..|actions|] == actions;
  }

  lemma SlowWorkerStalls(e: Event)
    ensures Run(Init(), SlowWorker(e)) == StalledState(e)
  {
    var p := SlowWorker(e);
    RunFive(Init(), p);
    hide Run;
    SlowWorkerClaims(e);
    hide ApplyClaim;
    assert ApplyInsert(ClaimedState(e), 1, Lost) == StalledState(e);
  }

  /** Worker 1 has claimed row 0. */
  function ClaimedState(e: Event): System {
    StalledState(e).(workers := map[1 := Worker(AtInsert, 0, 1, [0], 0)])
  }

  lemma SlowWorkerClaims(e: Event)
    ensures var p := SlowWorker(e); Apply(Apply(Apply(Apply(Init(), p[0]), p[1]), p[2]), p[3]) == ClaimedState(e)
  {
    SlowWorkerStarts(e);
    var p := SlowWorker(e);
    var s := Apply(Apply(Apply(Init(), p[0]), p[1]), p[2]);
    assert ApplyClaim(s, 1, [0], Returns) == ClaimedState(e);
  }

  /** One worker alone reopens its row if its published mark is committed and then raises. */
  lemma BotchedMarkReopens(e: Event)
    ensures
      var s := Apply(Apply(ClaimedState(e), Insert(1, Returns)), MarkPublished(1, CommittedThenRaised));
      && IsPublished(s, 0) && LateFailure(s, MarkFailed(1, Returns), 0)
      && Apply(s, MarkFailed(1, Returns)).db == Db(map[0 := FailedRow(s.db.rows[0], 0)], [e])
      && FailedRow(s.db.rows[0], 0).status == Pending
  {
    var row := ClaimedState(e).db.rows[0];
    var inserted := System(Db(map[0 := row], [e]), map[1 := Worker(AtMarkPublished(false), 0, 1, [0], 0)]);
    assert ApplyInsert(ClaimedState(e), 1, Returns) == inserted;
    var marked := System(Db(map[0 := PublishedRow(row, 0)], [e]), map[1 := Worker(AtMarkFailed, 0, 1, [0], 0)]);
    assert ApplyMarkPublished(inserted, 1, CommittedThenRaised) == marked;
    var failed := FailedRow(PublishedRow(row, 0), 0);
    assert UpdateRow(marked.db, 0, failed).rows == map[0 := failed];
  }

  lemma SlowWorkerStarts(e: Event)
    ensures Apply(Apply(Apply(Init(), Emit(0, e, true, 0, Returns)), Start(1, 0, 1)), Release(1, Returns)) ==
            System(Db(map[0 := NewRow(e, true, 0)], []), map[1 := Worker(AtClaim, 0, 1, [], 0)])
  {
    var s := Apply(Init(), Emit(0, e, true, 0, Returns));
    assert s == System(Db(map[0 := NewRow(e, true, 0)], []), map[]);
    s := Apply(s, Start(1, 0, 1));
    assert s == System(Db(map[0 := NewRow(e, true, 0)], []), map[1 := Worker(AtRelease, 0, 1, [], 0)]);
  }

  /** The state while worker 2 works on row 0, worker 1 still stalled. */
  function TakenOver(row: Row, log: seq<Event>, fast: Worker): System {
    System(Db(map[0 := row], log), map[1 := Worker(AtMarkFailed, 0, 1, [0], 0), 2 := fast])
  }

  lemma FastWorkerClaims(e: Event, at: int)
    requires at > STALE_PROCESSING_SECONDS * SECOND
    ensures
      var row := NewRow(e, true, 0).(updatedAt := at);
      Apply(Apply(Apply(StalledState(e), Start(2, at, 1)), Release(2, Returns)), Claim(2, [0], Returns)) ==
      TakenOver(row.(status := Processing, owner := Some(2)), [], Worker(AtInsert, at, 1, [0], 0))
  {
    var row := NewRow(e, true, 0).(updatedAt := at);
    var s := Apply(StalledState(e), Start(2, at, 1));
    assert s == TakenOver(StalledState(e).db.rows[0], [], Worker(AtRelease, at, 1, [], 0));
    assert ApplyRelease(s, 2, Returns) == TakenOver(row, [], Worker(AtClaim, at, 1, [], 0));
    FastWorkerTakes(row, at);
  }

  lemma FastWorkerTakes(row: Row, at: int)
    requires Eligible(row, at)
    ensures
      var claimed := row.(status := Processing, owner := Some(2), updatedAt := at);
      ApplyClaim(TakenOver(row, [], Worker(AtClaim, at, 1, [], 0)), 2, [0], Returns) ==
      TakenOver(claimed, [], Worker(AtInsert, at, 1, [0], 0))
  {
    var s := TakenOver(row, [], Worker(AtClaim, at, 1, [], 0));
    assert ClaimRows(s.db, [0], 2, at).rows == map[0 := row.(status := Processing, owner := Some(2), updatedAt := at)];
  }

  lemma FastWorkerInserts(row: Row, e: Event, at: int)
    requires row.payload == Some(e)
    ensures
      var s := TakenOver(row, [], Worker(AtInsert, at, 1, [0], 0));
      Apply(Apply(s, Insert(2, Returns)), MarkPublished(2, Returns)) ==
      TakenOver(PublishedRow(row, at), [e], Worker(Idle, at, 1, [], 1))
  {
    var s := TakenOver(row, [], Worker(AtInsert, at, 1, [0], 0));
    var marking := Worker(AtMarkPublished(false), at, 1, [0], 0);
    assert ApplyInsert(s, 2, Returns) == TakenOver(row, [e], marking);
    assert NextRow(marking) == Worker(Idle, at, 1, [], 0);
    assert ApplyMarkPublished(TakenOver(row, [e], marking), 2, Returns) ==
           TakenOver(PublishedRow(row, at), [e], Worker(Idle, at, 1, [], 1));
  }

  lemma FastWorkerPublishes(e: Event, at: int)
    requires at > STALE_PROCESSING_SECONDS * SECOND
    ensures Run(StalledState(e), FastWorker(at)) == OvertakenState(e, at)
  {
    var held := NewRow(e, true, 0).(updatedAt := at, status := Processing, owner := Some(2));
    RunFive(StalledState(e), FastWorker(at));
    FastWorkerClaims(e, at);
    FastWorkerInserts(held, e, at);
  }
}
