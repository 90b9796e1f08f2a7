/** The daily audit archive: export, manifest, read-back verification, watermark. */
module ArchiveSweep {
  import opened Options
  import opened OrderedSelect
  import opened Text

  const DAY: int := 86_400_000_000  // microseconds
  const ARCHIVE_BATCH_SIZE: int := 500
  const SYSTEM := "system"

  /** A row of the audit log; `line` is its JSONL rendering. */
  datatype Event = Event(org: Option<string>, occurredAt: int, line: string)

  type Events = map<Id, Event>  // by event id

  /******* The closed window *******/

  function WindowEnd(now: int): int { now / DAY * DAY }

  function WindowStart(now: int): int { WindowEnd(now) - DAY }

  /** "system" stands for events without an org. */
  predicate OrgMatches(org: string, e: Event) {
    if org == SYSTEM then e.org.None? else e.org == Some(org)
  }

  function Window(events: Events, org: string, now: int): map<Id, int> {
    map id | id in events && OrgMatches(org, events[id]) && WindowStart(now) <= events[id].occurredAt < WindowEnd(now)
      :: events[id].occurredAt
  }

  /** The export: the first 500 events of the window by time, then by id. */
  predicate IsExport(events: Events, org: string, now: int, rows: seq<Id>) {
    FirstInOrder(Window(events, org, now), rows, ARCHIVE_BATCH_SIZE)
  }

  function Joined(events: Events, rows: seq<Id>): string
    requires forall i :: 0 <= i < |rows| ==> rows[i] in events
  {
    if rows == [] then ""
    else if |rows| == 1 then events[rows[0]].line
    else events[rows[0]].line + "\n" + Joined(events, rows[1..])
  }

  function Content(events: Events, rows: seq<Id>): string
    requires forall i :: 0 <= i < |rows| ==> rows[i] in events
  {
    var joined := Joined(events, rows);
    if joined == "" then "" else joined + "\n"
  }

  /** The window is never the current day, and it moves exactly when the day changes. */
  lemma WindowIsClosed(now: int, later: int)
    requires now <= later
    ensures WindowEnd(now) <= now < WindowEnd(now) + DAY
    ensures WindowEnd(now) <= WindowEnd(later)
    ensures WindowEnd(now) == WindowEnd(later) <==> later < WindowEnd(now) + DAY
  {
  }

  /** The window is yesterday: the times whose day is the one before the day of `now`. */
  lemma WindowIsYesterday(now: int, time: int)
    ensures WindowStart(now) <= time < WindowEnd(now) <==> time / 86_400_000_000 == now / 86_400_000_000 - 1
    ensures WindowStart(now + 86_400_000_000) == WindowEnd(now)
  {
  }

  /** Only events of the org and of yesterday are exported. */
  lemma ExportedIsYesterday(events: Events, org: string, now: int, rows: seq<Id>, id: Id)
    requires IsExport(events, org, now, rows) && id in rows
    ensures id in events && events[id].org == (if org == "system" then None else Some(org))
    ensures events[id].occurredAt / 86_400_000_000 == now / 86_400_000_000 - 1
  {
    var i :| 0 <= i < |rows| && rows[i] == id;
    assert id in Window(events, org, now);
    WindowIsYesterday(now, events[id].occurredAt);
  }

  /** The terminated lines of a text. */
  function LinesOf(text: string): seq<string>
    decreases |text|
  {
    match Partition(text, '\n')
    case None => []
    case Some(parts) => [parts.0] + LinesOf(parts.1)
  }

  /** The object holds one line per exported event, in order: reading it line by line gives their renderings. */
  lemma {:induction false} ContentReadsBack(events: Events, rows: seq<Id>)
    requires forall i :: 0 <= i < |rows| ==> rows[i] in events
    requires forall i :: 0 <= i < |rows| ==> events[rows[i]].line != "" && '\n' !in events[rows[i]].line
    ensures |LinesOf(Content(events, rows))| == |rows|
    ensures forall i :: 0 <= i < |rows| ==> LinesOf(Content(events, rows))[i] == events[rows[i]].line
  {
    if rows == [] {
      assert Content(events, rows) == "";
    } else {
      hide Content, LinesOf;
      var line, rest := events[rows[0]].line, rows[1..];
      assert forall i :: 0 <= i < |rest| ==> rest[i] == rows[i + 1];
      ContentReadsBack(events, rest);
      ContentCons(events, rows);
      LinesOfCons(line, Content(events, rest));
    }
  }

  lemma LinesOfCons(line: string, rest: string)
    requires '\n' !in line
    ensures LinesOf(line + ['\n'] + rest) == [line] + LinesOf(rest)
  {
    hide Partition;
    PartitionOf(line, '\n', rest);
  }

  lemma ContentCons(events: Events, rows: seq<Id>)
    requires rows != [] && forall i :: 0 <= i < |rows| ==> rows[i] in events && events[rows[i]].line != ""
    ensures Content(events, rows) == events[rows[0]].line + ['\n'] + Content(events, rows[1..])
  {
    if |rows| == 1 {
      assert rows[1..] == [];
    } else {
      assert rows[1..][0] == rows[1];
      assert Joined(events, rows[1..]) != "";
    }
  }

  /** Re-exporting an unchanged window yields the same rows, hence the same content and digest. */
  lemma ExportIsStable(events: Events, org: string, now: int, a: seq<Id>, b: seq<Id>)
    requires IsExport(events, org, now, a) && IsExport(events, org, now, b)
    ensures a == b
  {
    FirstInOrderUnique(Window(events, org, now), a, b, ARCHIVE_BATCH_SIZE, |a|);
    assert a[..|a|] == a && b[..|b|] == b;
  }

  /** The export holds every event of the window exactly when there are at most 500 of them. */
  lemma ExportCompleteIff(events: Events, org: string, now: int, rows: seq<Id>)
    requires IsExport(events, org, now, rows)
    ensures
      var w := Window(events, org, now);
      (forall id :: id in w ==> id in rows) <==> |w| <= ARCHIVE_BATCH_SIZE
  {
    var w := Window(events, org, now);
    var chosen := Members(rows);
    ChosenCount(w, rows);
    if forall id :: id in w ==> id in rows {
      assert w.Keys == chosen;
    } else if |w.Keys| <= ARCHIVE_BATCH_SIZE {
      var id :| id in w && id !in rows;
      assert chosen < w.Keys;
      ProperSubsetSmaller(chosen, w.Keys);
      assert false;
    }
  }

  function Members(rows: seq<Id>): set<Id> {
    set id | id in rows
  }

  lemma {:induction false} ChosenCount(rank: map<Id, int>, rows: seq<Id>)
    requires forall i :: 0 <= i < |rows| ==> rows[i] in rank
    requires forall i, j :: 0 <= i < j < |rows| ==> Earlier(rank, rows[i], rows[j])
    ensures |Members(rows)| == |rows| && Members(rows) <= rank.Keys
  {
    if rows != [] {
      var n := |rows| - 1;
      ChosenCount(rank, rows[..n]);
      assert rows == rows[..n] + [rows[n]];
      assert rows[n] !in rows[..n];
      assert Members(rows) == Members(rows[..n]) + {rows[n]};
    }
  }

  lemma ProperSubsetSmaller(a: set<Id>, b: set<Id>)
    requires a < b
    ensures |a| < |b|
  {
    assert b == a + (b - a);
    assert b - a != {};
  }

  /** The events of the window that come before one of them. */
  function Before(rank: map<Id, int>, id: Id): set<Id>
    requires id in rank
  {
    set r | r in rank && Earlier(rank, r, id)
  }

  lemma SubsetNotLarger(a: set<Id>, b: set<Id>)
    requires a <= b
    ensures |a| <= |b|
  {
    if a != b { ProperSubsetSmaller(a, b); }
  }

  /** A key is selected exactly if fewer keys than the limit come before it. */
  lemma AmongFirst(rank: map<Id, int>, ids: seq<Id>, limit: nat, id: Id)
    requires FirstInOrder(rank, ids, limit) && id in rank
    ensures id in ids <==> |Before(rank, id)| < limit
  {
    if id in ids {
      var k :| 0 <= k < |ids| && ids[k] == id;
      ChosenCount(rank, ids[..k]);
      forall r | r in Before(rank, id) ensures r in Members(ids[..k]) {
        if r in ids {
          var j :| 0 <= j < |ids| && ids[j] == r;
          assert j < k;
          assert ids[..k][j] == r;
        }
      }
      SubsetNotLarger(Before(rank, id), Members(ids[..k]));
    } else {
      ChosenCount(rank, ids);
      assert Members(ids) < rank.Keys;
      ProperSubsetSmaller(Members(ids), rank.Keys);
      assert |ids| == limit;
      forall r | r in Members(ids) ensures r in Before(rank, id) {
        var j :| 0 <= j < |ids| && ids[j] == r;
      }
      SubsetNotLarger(Members(ids), Before(rank, id));
    }
  }

  /** A day with 501 events, one per microsecond. */
  function BusyDay(): Events {
    map id: Id | 0 <= id < 501 :: Event(None, id, "")
  }

  function Below(n: nat): (ids: set<Id>)
    ensures |ids| == n && forall id: Id :: id in ids <==> id < n
  {
    if n == 0 then {} else Below(n - 1) + {n - 1}
  }

  /** The last of 501 events is never exported. */
  lemma BusyDayOverflows(rows: seq<Id>)
    requires IsExport(BusyDay(), SYSTEM, DAY, rows)
    ensures 500 in Window(BusyDay(), SYSTEM, DAY) && 500 !in rows
  {
    var w := Window(BusyDay(), SYSTEM, DAY);
    assert forall id :: id in w <==> 0 <= id < 501;
    assert forall id :: id in w ==> w[id] == id;
    assert Before(w, 500) == Below(500);
    AmongFirst(w, rows, 500, 500);
  }

  /******* The orgs of a sweep *******/

  ghost predicate IsOrgList(events: Events, orgs: seq<string>) {
    && (forall i, j :: 0 <= i < j < |orgs| ==> orgs[i] != orgs[j])
    && (forall org :: org in orgs <==> org == SYSTEM || exists id :: id in events && events[id].org == Some(org))
  }

  /** An event falls under some org of the sweep unless its org is itself named "system". */
  lemma EventCoveredIff(events: Events, orgs: seq<string>, id: Id)
    requires IsOrgList(events, orgs) && id in events
    ensures (exists org :: org in orgs && OrgMatches(org, events[id])) <==> events[id].org != Some(SYSTEM)
  {
    if events[id].org.None? {
      assert OrgMatches(SYSTEM, events[id]);
    } else if events[id].org != Some(SYSTEM) {
      assert OrgMatches(events[id].org.value, events[id]);
    }
  }

  /** An event of the org named "system" that no org of the sweep covers. */
  lemma SystemOrgIsMissed()
    ensures
      var events := map[0 := Event(Some(SYSTEM), 0, "")];
      IsOrgList(events, [SYSTEM]) && !exists org :: org in [SYSTEM] && OrgMatches(org, events[0])
  {
    var events: Events := map[0 := Event(Some(SYSTEM), 0, "")];
    assert events[0].org == Some(SYSTEM);
  }

  /******* One org *******/

  datatype Watermark = Watermark(windowEnd: int, lastEventId: Id, batchCount: nat)

  datatype Manifest = Manifest(batchId: string, org: Option<string>, windowStart: int, windowEnd: int, eventCount: nat,
                               firstEventId: Id, lastEventId: Id, digest: string, createdAt: int)

  datatype ObjectKey = ObjectKey(org: string, day: int, batchId: string)

  datatype ManifestKey = ManifestKey(org: string, day: int)

  datatype Archive = Archive(objects: map<ObjectKey, string>, manifests: map<ManifestKey, Manifest>,
                             watermarks: map<string, Watermark>)

  /** How the object store answers: a write raises, or both succeed and the read-back gives some bytes or raises. */
  datatype StoreResult = PutRaises | ManifestRaises | ReadBack(bytes: Option<string>)

  datatype Step = Step(events: Events, org: string, now: int, rows: seq<Id>, batchId: string, result: StoreResult)

  function KeyOf(s: Step): ObjectKey {
    ObjectKey(s.org, WindowStart(s.now), s.batchId)
  }

  predicate ValidStep(s: Step) {
    IsExport(s.events, s.org, s.now, s.rows)
  }

  /** One of the two writes raises, which ends the sweep. */
  predicate WriteRaises(s: Step) {
    s.rows != [] && !s.result.ReadBack?
  }

  type Digest = string -> string

  predicate Verified(s: Step, sha: Digest)
    requires ValidStep(s)
  {
    && s.rows != [] && s.result.ReadBack?
    && s.result.bytes.Some? && sha(s.result.bytes.value) == sha(Content(s.events, s.rows))
  }

  function ManifestOf(s: Step, sha: Digest): Manifest
    requires ValidStep(s) && s.rows != []
  {
    Manifest(s.batchId, if s.org == SYSTEM then None else Some(s.org), WindowStart(s.now), WindowEnd(s.now), |s.rows|,
             s.rows[0], s.rows[|s.rows| - 1], sha(Content(s.events, s.rows)), s.now)
  }

  function Advanced(a: Archive, org: string, windowEnd: int, lastEventId: Id): Archive {
    a.(watermarks := a.watermarks[org :=
      Watermark(windowEnd, lastEventId, 1 + if org in a.watermarks then a.watermarks[org].batchCount else 0)])
  }

  function Apply(a: Archive, s: Step, sha: Digest): Archive
    requires ValidStep(s)
  {
    if s.rows == [] || s.result.PutRaises? then a
    else
      var stored := a.(objects := a.objects[KeyOf(s) := Content(s.events, s.rows)]);
      if s.result.ManifestRaises? then stored
      else
        var key := ManifestKey(s.org, WindowStart(s.now));
        var noted := stored.(manifests := stored.manifests[key := ManifestOf(s, sha)]);
        if Verified(s, sha) then Advanced(noted, s.org, WindowEnd(s.now), s.rows[|s.rows| - 1]) else noted
  }

  function Run(a: Archive, steps: seq<Step>, sha: Digest): Archive
    requires forall i :: 0 <= i < |steps| ==> ValidStep(steps[i])
  {
    if steps == [] then a else Apply(Run(a, steps[..|steps| - 1], sha), steps[|steps| - 1], sha)
  }

  /** A watermark changes exactly for the org whose export was read back with the right digest. */
  lemma WatermarkMovesIff(a: Archive, s: Step, sha: Digest, org: string)
    requires ValidStep(s)
    ensures
      var a' := Apply(a, s, sha);
      && (a'.watermarks != a.watermarks <==> Verified(s, sha))
      && (Verified(s, sha) <==>
          s.rows != [] && s.result.ReadBack? && s.result.bytes.Some?
          && sha(s.result.bytes.value) == sha(a'.objects[ObjectKey(s.org, WindowStart(s.now), s.batchId)]))
      && (org != s.org ==> (org in a'.watermarks <==> org in a.watermarks)
                           && (org in a.watermarks ==> a'.watermarks[org] == a.watermarks[org]))
      && (Verified(s, sha) ==>
            && s.org in a'.watermarks
            && a'.watermarks[s.org].windowEnd == WindowEnd(s.now)
            && a'.watermarks[s.org].lastEventId == s.rows[|s.rows| - 1]
            && a'.watermarks[s.org].batchCount ==
               1 + if s.org in a.watermarks then a.watermarks[s.org].batchCount else 0)
  {
  }

  /** The window end falls back exactly when the sweep's clock is in an earlier day than the watermark. */
  lemma WatermarkRegressesIff(a: Archive, s: Step, sha: Digest)
    requires ValidStep(s) && s.org in a.watermarks
    ensures Apply(a, s, sha).watermarks[s.org].windowEnd < a.watermarks[s.org].windowEnd
            <==> Verified(s, sha) && WindowEnd(s.now) < a.watermarks[s.org].windowEnd
  {
  }

  /** A manifest describes the export: its size, its first and last event in order, its digest. */
  lemma ManifestDescribesExport(a: Archive, s: Step, sha: Digest)
    requires ValidStep(s) && s.rows != [] && s.result.ReadBack?
    ensures
      var a', w := Apply(a, s, sha), Window(s.events, s.org, s.now);
      var key := ManifestKey(s.org, WindowStart(s.now));
      && key in a'.manifests
      && var m := a'.manifests[key];
      && m.eventCount == AtMost(ARCHIVE_BATCH_SIZE, |w|)
      && m.firstEventId in w && (forall id :: id in w && id != m.firstEventId ==> Earlier(w, m.firstEventId, id))
      && m.lastEventId in w && m.lastEventId == s.rows[m.eventCount - 1]
      && (forall id :: id in w ==> (id in s.rows <==> id == m.lastEventId || Earlier(w, id, m.lastEventId)))
      && m.digest == sha(Content(s.events, s.rows)) && m.createdAt == s.now
      && a'.objects[ObjectKey(s.org, WindowStart(s.now), m.batchId)] == Content(s.events, s.rows)
  {
    var w := Window(s.events, s.org, s.now);
    var n := |s.rows| - 1;
    forall id | id in w && id != s.rows[0] ensures Earlier(w, s.rows[0], id) {
      if id in s.rows { var i :| 0 <= i <= n && s.rows[i] == id; }
    }
    forall id | id in w ensures id in s.rows <==> id == s.rows[n] || Earlier(w, id, s.rows[n]) {
      if id in s.rows { var i :| 0 <= i <= n && s.rows[i] == id; }
    }
  }

  /** The manifest's org and window are those of the exported events, and its window is one day long. */
  lemma ManifestNamesItsDay(a: Archive, s: Step, sha: Digest, id: Id)
    requires ValidStep(s) && id in s.rows && s.result.ReadBack?
    ensures
      var key := ManifestKey(s.org, WindowStart(s.now));
      && key in Apply(a, s, sha).manifests && id in s.events
      && var m, e := Apply(a, s, sha).manifests[key], s.events[id];
      && m.org == e.org && m.windowStart <= e.occurredAt < m.windowEnd && m.windowEnd - m.windowStart == 86_400_000_000
  {
    ExportedIsYesterday(s.events, s.org, s.now, s.rows, id);
    WindowIsYesterday(s.now, s.events[id].occurredAt);
    hide Content, ValidStep, Verified;
  }

  predicate Writes(s: Step) {
    s.rows != [] && !s.result.PutRaises?
  }

  /**
   Archiving a window again does not overwrite: the first object survives next to the second if and only if
   the batch ids differ, and if the events have not changed both hold the same content.
   */
  lemma RearchiveKeepsBoth(a: Archive, s: Step, t: Step, sha: Digest)
    requires ValidStep(s) && ValidStep(t) && Writes(s) && Writes(t)
    requires t.org == s.org && WindowEnd(t.now) == WindowEnd(s.now)
    ensures
      var objects := Apply(Apply(a, s, sha), t, sha).objects;
      && KeyOf(s) in objects && KeyOf(t) in objects && objects[KeyOf(t)] == Content(t.events, t.rows)
      && (KeyOf(s) != KeyOf(t) <==> s.batchId != t.batchId)
      && (objects[KeyOf(s)] == Content(s.events, s.rows) <==>
          s.batchId != t.batchId || Content(s.events, s.rows) == Content(t.events, t.rows))
      && (s.events == t.events ==> objects[KeyOf(s)] == objects[KeyOf(t)])
  {
    if s.events == t.events { ExportIsStable(s.events, s.org, s.now, s.rows, t.rows); }
    hide Apply, Content, ValidStep;
    WritesObject(a, s, sha);
    WritesObject(Apply(a, s, sha), t, sha);
  }

  lemma WritesObject(a: Archive, s: Step, sha: Digest)
    requires ValidStep(s)
    ensures Apply(a, s, sha).objects ==
            if Writes(s) then a.objects[KeyOf(s) := Content(s.events, s.rows)] else a.objects
  {
    hide Content, ValidStep, Verified, ManifestOf;
  }

  /** A sweep at midnight that finds one event of the day before. */
  function OneEvent(now: int): Step {
    Step(map[0 := Event(None, now - DAY, "")], SYSTEM, now, [0], "batch", ReadBack(Some("")))
  }

  lemma OneEventVerified(now: int, sha: Digest)
    requires WindowEnd(now) == now
    ensures ValidStep(OneEvent(now)) && Verified(OneEvent(now), sha)
  {
    var s := OneEvent(now);
    var w := Window(s.events, s.org, s.now);
    assert w == map[0 := now - DAY] && w.Keys == {0};
    assert Joined(s.events, s.rows) == "";
  }

  /** A clock that goes back a day takes the watermark back with it. */
  lemma ClockGoesBack(sha: Digest)
    ensures
      var late, early := OneEvent(2 * DAY), OneEvent(DAY);
      && ValidStep(late) && ValidStep(early)
      && var first := Apply(Archive(map[], map[], map[]), late, sha);
      && SYSTEM in first.watermarks && first.watermarks[SYSTEM].windowEnd == 2 * DAY
      && var second := Apply(first, early, sha);
      && SYSTEM in second.watermarks && second.watermarks[SYSTEM].windowEnd == DAY
  {
    var late, early := OneEvent(2 * DAY), OneEvent(DAY);
    OneEventVerified(2 * DAY, sha);
    OneEventVerified(DAY, sha);
    hide Apply, Content, ValidStep, Verified;
    var empty := Archive(map[], map[], map[]);
    WatermarkMovesIff(empty, late, sha, SYSTEM);
    WatermarkMovesIff(Apply(empty, late, sha), early, sha, SYSTEM);
  }

  /******* Any number of sweeps *******/

  predicate Monotone(steps: seq<Step>) {
    forall i, j :: 0 <= i < j < |steps| ==> steps[i].now <= steps[j].now
  }

  /** No watermark is ahead of the clock. */
  predicate Behind(a: Archive, now: int) {
    forall org :: org in a.watermarks ==> a.watermarks[org].windowEnd <= WindowEnd(now)
  }

  /** With a clock that does not go back, no watermark ever does, across any number of sweeps. */
  lemma {:induction false} WatermarksNeverRegress(a: Archive, steps: seq<Step>, sha: Digest, org: string)
    requires forall i :: 0 <= i < |steps| ==> ValidStep(steps[i])
    requires Monotone(steps) && (steps != [] ==> Behind(a, steps[0].now))
    ensures steps != [] ==> Behind(Run(a, steps, sha), steps[|steps| - 1].now)
    ensures org in a.watermarks ==>
      var after := Run(a, steps, sha).watermarks;
      org in after && a.watermarks[org].windowEnd <= after[org].windowEnd
  {
    if steps != [] {
      hide Content, Verified, ManifestOf, ValidStep;
      var n := |steps| - 1;
      var before, s := steps[..n], steps[n];
      WatermarksNeverRegress(a, before, sha, org);
      var b := Run(a, before, sha);
      WindowIsClosed(steps[if n > 0 then n - 1 else 0].now, s.now);
      assert Behind(b, s.now);
      WatermarkMovesIff(b, s, sha, org);
      forall o | o in Apply(b, s, sha).watermarks ensures Apply(b, s, sha).watermarks[o].windowEnd <= WindowEnd(s.now) {
        WatermarkMovesIff(b, s, sha, o);
      }
    }
  }

  function BatchCount(a: Archive, org: string): nat {
    if org in a.watermarks then a.watermarks[org].batchCount else 0
  }

  /** How many exports of the org were read back with the right digest. */
  function VerifiedFor(steps: seq<Step>, sha: Digest, org: string): nat
    requires forall i :: 0 <= i < |steps| ==> ValidStep(steps[i])
  {
    if steps == [] then 0
    else
      var s := steps[|steps| - 1];
      VerifiedFor(steps[..|steps| - 1], sha, org) + if s.org == org && Verified(s, sha) then 1 else 0
  }

  /** Over any sweeps, an org's watermark counts its verified batches. */
  lemma {:induction false} BatchCountConserved(a: Archive, steps: seq<Step>, sha: Digest, org: string)
    requires forall i :: 0 <= i < |steps| ==> ValidStep(steps[i])
    ensures BatchCount(Run(a, steps, sha), org) == BatchCount(a, org) + VerifiedFor(steps, sha, org)
  {
    hide ValidStep, Verified, Apply;
    if steps != [] {
      BatchCountConserved(a, steps[..|steps| - 1], sha, org);
      WatermarkMovesIff(Run(a, steps[..|steps| - 1], sha), steps[|steps| - 1], sha, org);
    }
  }

  /** No two steps write the same object. */
  predicate FreshBatches(steps: seq<Step>) {
    forall i, j :: 0 <= i < j < |steps| && Writes(steps[i]) && Writes(steps[j]) ==> KeyOf(steps[i]) != KeyOf(steps[j])
  }

  predicate Stored(a: Archive, s: Step)
    requires ValidStep(s)
  {
    KeyOf(s) in a.objects && a.objects[KeyOf(s)] == Content(s.events, s.rows)
  }

  lemma StoredStays(a: Archive, s: Step, t: Step, sha: Digest)
    requires ValidStep(s) && ValidStep(t) && Stored(a, s) && (Writes(t) ==> KeyOf(t) != KeyOf(s))
    ensures Stored(Apply(a, t, sha), s)
  {
    hide ValidStep, Verified, Content, ManifestOf;
  }

  /** Objects are never overwritten while batch ids are fresh. */
  lemma {:induction false} ObjectsStay(a: Archive, steps: seq<Step>, sha: Digest, i: nat)
    requires forall k :: 0 <= k < |steps| ==> ValidStep(steps[k])
    requires FreshBatches(steps) && i < |steps| && Writes(steps[i])
    ensures Stored(Run(a, steps, sha), steps[i])
  {
    hide ValidStep, Verified, Content, ManifestOf;
    var n := |steps| - 1;
    if i < n {
      assert forall k :: 0 <= k < n ==> steps[..n][k] == steps[k];
      ObjectsStay(a, steps[..n], sha, i);
      StoredStays(Run(a, steps[..n], sha), steps[i], steps[n], sha);
    }
  }

  /** The manifest is the one of this step, and names an object that holds the step's export. */
  predicate Describes(a: Archive, key: ManifestKey, s: Step, sha: Digest)
    requires ValidStep(s) && key in a.manifests
  {
    && Writes(s) && key == ManifestKey(s.org, WindowStart(s.now))
    && var m := a.manifests[key];
    && m.batchId == s.batchId && m.digest == sha(Content(s.events, s.rows)) && m.eventCount == |s.rows|
    && m.firstEventId == s.rows[0] && m.lastEventId == s.rows[|s.rows| - 1]
    && m.org == (if s.org == "system" then None else Some(s.org)) && m.createdAt == s.now
    && m.windowStart == WindowStart(s.now) && m.windowEnd == WindowEnd(s.now)
    && Stored(a, s)
  }

  /**
   Over every run with fresh batch ids from an empty archive, each manifest names an object that is still
   there, holds the export the manifest describes, and has its digest and count.
   */
  lemma {:induction false} ManifestsNameObjects(steps: seq<Step>, sha: Digest, key: ManifestKey)
    requires forall k :: 0 <= k < |steps| ==> ValidStep(steps[k])
    requires FreshBatches(steps)
    ensures
      var a := Run(Archive(map[], map[], map[]), steps, sha);
      key in a.manifests ==> exists i :: 0 <= i < |steps| && Describes(a, key, steps[i], sha)
  {
    if steps != [] {
      var empty := Archive(map[], map[], map[]);
      var n := |steps| - 1;
      var before, s := Run(empty, steps[..n], sha), steps[n];
      assert forall k :: 0 <= k < n ==> steps[..n][k] == steps[k];
      hide ValidStep, Verified, Content;
      hide Describes, Apply;
      if Notes(s, key) {
        DescribesOwn(before, key, s, sha);
        assert Describes(Run(empty, steps, sha), key, steps[n], sha);
      } else {
        OtherManifestsStay(before, key, s, sha);
        ManifestsNameObjects(steps[..n], sha, key);
        if key in before.manifests {
          var i :| 0 <= i < n && Describes(before, key, steps[..n][i], sha);
          DescribesStays(before, key, steps[i], s, sha);
          assert Describes(Run(empty, steps, sha), key, steps[i], sha);
        }
      }
    }
  }

  /** The step writes this manifest. */
  predicate Notes(s: Step, key: ManifestKey) {
    s.rows != [] && s.result.ReadBack? && key == ManifestKey(s.org, WindowStart(s.now))
  }

  lemma OtherManifestsStay(a: Archive, key: ManifestKey, s: Step, sha: Digest)
    requires ValidStep(s) && !Notes(s, key)
    ensures key in Apply(a, s, sha).manifests <==> key in a.manifests
    ensures key in a.manifests ==> Apply(a, s, sha).manifests[key] == a.manifests[key]
  {
    hide ValidStep, Verified, Content, ManifestOf;
  }

  lemma DescribesOwn(a: Archive, key: ManifestKey, s: Step, sha: Digest)
    requires ValidStep(s) && Notes(s, key)
    ensures key in Apply(a, s, sha).manifests && Describes(Apply(a, s, sha), key, s, sha)
  {
    hide ValidStep, Verified, Content;
  }

  lemma DescribesStays(a: Archive, key: ManifestKey, s: Step, t: Step, sha: Digest)
    requires ValidStep(s) && ValidStep(t) && key in a.manifests && Describes(a, key, s, sha)
    requires !Notes(t, key) && (Writes(t) ==> KeyOf(t) != KeyOf(s))
    ensures key in Apply(a, t, sha).manifests && Describes(Apply(a, t, sha), key, s, sha)
  {
    hide ValidStep, Content, Apply;
    OtherManifestsStay(a, key, t, sha);
    StoredStays(a, s, t, sha);
  }

  /******* The sweep *******/

  /** The steps are a sweep over all orgs in which no write raised. */
  ghost predicate CompleteSweep(events: Events, orgs: seq<string>, now: int, steps: seq<Step>) {
    && IsOrgList(events, orgs) && |steps| == |orgs|
    && forall i :: 0 <= i < |steps| ==>
         && ValidStep(steps[i]) && steps[i].events == events && steps[i].org == orgs[i] && steps[i].now == now
         && !WriteRaises(steps[i])
  }

  /** Is the event in an object of the archive that one of the steps wrote? */
  ghost predicate Archived(a: Archive, steps: seq<Step>, id: Id)
    requires forall i :: 0 <= i < |steps| ==> ValidStep(steps[i])
  {
    exists i :: 0 <= i < |steps| && id in steps[i].rows && Stored(a, steps[i])
  }

  /**
   After a complete sweep, an event of the day is archived if and only if its org is not named "system" and
   fewer than 500 events of its org come before it that day.
   */
  lemma SweepArchivesIff(a: Archive, events: Events, orgs: seq<string>, now: int, steps: seq<Step>, sha: Digest, id: Id)
    requires CompleteSweep(events, orgs, now, steps)
    requires id in events && WindowStart(now) <= events[id].occurredAt < WindowEnd(now)
    ensures
      var org := if events[id].org.None? then SYSTEM else events[id].org.value;
      Archived(Run(a, steps, sha), steps, id) <==>
      events[id].org != Some(SYSTEM) && |Before(Window(events, org, now), id)| < ARCHIVE_BATCH_SIZE
  {
    var org := if events[id].org.None? then SYSTEM else events[id].org.value;
    var w := Window(events, org, now);
    SweepExportsIff(events, orgs, now, steps, id);
    if i :| 0 <= i < |steps| && id in steps[i].rows {
      SweepIsFresh(events, orgs, now, steps);
      hide ValidStep, IsOrgList, Verified, Content;
      ObjectsStay(a, steps, sha, i);
    }
  }

  lemma SweepIsFresh(events: Events, orgs: seq<string>, now: int, steps: seq<Step>)
    requires CompleteSweep(events, orgs, now, steps)
    ensures FreshBatches(steps)
  {
    hide ValidStep;
  }

  lemma SweepExportsIff(events: Events, orgs: seq<string>, now: int, steps: seq<Step>, id: Id)
    requires CompleteSweep(events, orgs, now, steps)
    requires id in events && WindowStart(now) <= events[id].occurredAt < WindowEnd(now)
    ensures
      var org := if events[id].org.None? then SYSTEM else events[id].org.value;
      (exists i :: 0 <= i < |steps| && id in steps[i].rows) <==>
      events[id].org != Some(SYSTEM) && |Before(Window(events, org, now), id)| < ARCHIVE_BATCH_SIZE
  {
    var org := if events[id].org.None? then SYSTEM else events[id].org.value;
    var w := Window(events, org, now);
    if i :| 0 <= i < |steps| && id in steps[i].rows {
      var k :| 0 <= k < |steps[i].rows| && steps[i].rows[k] == id;
      assert id in Window(events, orgs[i], now);
      assert orgs[i] == org;
      AmongFirst(w, steps[i].rows, ARCHIVE_BATCH_SIZE, id);
    } else if events[id].org != Some(SYSTEM) {
      assert org in orgs;
      var i :| 0 <= i < |orgs| && orgs[i] == org;
      assert OrgMatches(org, events[id]) && id in w;
      AmongFirst(w, steps[i].rows, ARCHIVE_BATCH_SIZE, id);
    }
  }

  /******* Sweeps day by day *******/

  datatype Sweep = Sweep(events: Events, orgs: seq<string>, now: int, steps: seq<Step>)

  /** Complete sweeps, one a day, that all see the event as it is. */
  ghost predicate Daily(sweeps: seq<Sweep>, id: Id, e: Event) {
    forall k :: 0 <= k < |sweeps| ==>
      && CompleteSweep(sweeps[k].events, sweeps[k].orgs, sweeps[k].now, sweeps[k].steps)
      && id in sweeps[k].events && sweeps[k].events[id] == e
      && sweeps[k].now / 86_400_000_000 == sweeps[0].now / 86_400_000_000 + k
  }

  predicate ExportedBy(sweep: Sweep, id: Id) {
    exists i :: 0 <= i < |sweep.steps| && id in sweep.steps[i].rows
  }

  /**
   Over complete sweeps on consecutive days, an event is exported by the sweep of the day after its own and
   by no other, if and only if there is such a sweep, its org is not named "system" and fewer than 500
   events of its org come before it that day.
   */
  lemma DailySweepsExportOnce(sweeps: seq<Sweep>, id: Id, e: Event, k: nat)
    requires k < |sweeps| && Daily(sweeps, id, e)
    ensures
      var org, sweep := if e.org.None? then "system" else e.org.value, sweeps[k];
      var w := Window(sweep.events, org, sweep.now);
      && (id in w <==> e.occurredAt / 86_400_000_000 + 1 == sweeps[0].now / 86_400_000_000 + k
                       && e.org != Some("system"))
      && (ExportedBy(sweep, id) <==> id in w && |Before(w, id)| < 500)
  {
    var sweep := sweeps[k];
    assert CompleteSweep(sweep.events, sweep.orgs, sweep.now, sweep.steps);
    WindowIsYesterday(sweep.now, e.occurredAt);
    if WindowStart(sweep.now) <= e.occurredAt < WindowEnd(sweep.now) {
      SweepExportsIff(sweep.events, sweep.orgs, sweep.now, sweep.steps, id);
    } else if i :| 0 <= i < |sweep.steps| && id in sweep.steps[i].rows {
      ExportedIsYesterday(sweep.events, sweep.orgs[i], sweep.now, sweep.steps[i].rows, id);
      assert false;
    }
  }

  datatype ArchiveReport =
    ArchiveReport(orgsArchived: nat, eventsArchived: nat, batchesWritten: nat, failures: seq<string>)

  function CountVerified(steps: seq<Step>, sha: Digest): nat
    requires forall i :: 0 <= i < |steps| ==> ValidStep(steps[i])
  {
    if steps == [] then 0
    else CountVerified(steps[..|steps| - 1], sha) + if Verified(steps[|steps| - 1], sha) then 1 else 0
  }

  function EventsVerified(steps: seq<Step>, sha: Digest): nat
    requires forall i :: 0 <= i < |steps| ==> ValidStep(steps[i])
  {
    if steps == [] then 0
    else
      var s := steps[|steps| - 1];
      EventsVerified(steps[..|steps| - 1], sha) + if Verified(s, sha) then |s.rows| else 0
  }

  function FailuresOf(steps: seq<Step>, sha: Digest): seq<string>
    requires forall i :: 0 <= i < |steps| ==> ValidStep(steps[i])
  {
    if steps == [] then []
    else
      var s := steps[|steps| - 1];
      FailuresOf(steps[..|steps| - 1], sha)
      + if s.rows != [] && s.result.ReadBack? && !Verified(s, sha) then [s.org] else []
  }

  class ArchiveWorker {
    var objects: map<ObjectKey, string>
    var manifests: map<ManifestKey, Manifest>
    var watermarks: map<string, Watermark>

    ghost function State(): Archive
      reads this
    {
      Archive(objects, manifests, watermarks)
    }

    method ExportWindow(events: Events, org: string, now: int) returns (rows: seq<Id>)
      ensures IsExport(events, org, now, rows)
    {
      rows := SelectFirst(
        map id | id in events && OrgMatches(org, events[id])
                 && WindowStart(now) <= events[id].occurredAt < WindowEnd(now)
          :: events[id].occurredAt, ARCHIVE_BATCH_SIZE);
    }

    method UpsertWatermark(org: string, windowEnd: int, lastEventId: Id)
      modifies this
      ensures State() == Advanced(old(State()), org, windowEnd, lastEventId)
    {
      if org in watermarks {
        watermarks := watermarks[org := Watermark(windowEnd, lastEventId, watermarks[org].batchCount + 1)];
      } else {
        watermarks := watermarks[org := Watermark(windowEnd, lastEventId, 1)];
      }
    }

    /** One org of the sweep. */
    method ArchiveOrg(s: Step, sha: Digest) returns (raised: bool, verified: bool)
      requires ValidStep(s)
      modifies this
      ensures State() == Apply(old(State()), s, sha)
      ensures raised <==> WriteRaises(s)
      ensures verified <==> Verified(s, sha)
    {
      raised, verified := false, false;
      if s.rows == [] { return; }
      var day := WindowStart(s.now);
      if s.result.PutRaises? { return true, false; }
      objects := objects[ObjectKey(s.org, day, s.batchId) := Content(s.events, s.rows)];
      if s.result.ManifestRaises? { return true, false; }
      manifests := manifests[ManifestKey(s.org, day) := ManifestOf(s, sha)];
      if s.result.bytes.None? || sha(s.result.bytes.value) != sha(Content(s.events, s.rows)) { return; }
      UpsertWatermark(s.org, WindowEnd(s.now), s.rows[|s.rows| - 1]);
      verified := true;
    }

    /** Every org in turn; a raising write ends the sweep, a failed verification only skips the watermark. */
    method SweepArchiveAudit(events: Events, orgs: seq<string>, now: int, sha: Digest,
                             batchIds: nat -> string, store: nat -> StoreResult)
      returns (report: ArchiveReport, raised: bool, ghost steps: seq<Step>)
      modifies this
      ensures |steps| <= |orgs| && forall i :: 0 <= i < |steps| ==>
        ValidStep(steps[i]) && steps[i] == Step(events, orgs[i], now, steps[i].rows, batchIds(i), store(i))
      ensures State() == Run(old(State()), steps, sha)
      ensures |steps| == |orgs| || raised
      ensures raised <==> steps != [] && WriteRaises(steps[|steps| - 1])
      ensures forall i :: 0 <= i < |steps| - 1 ==> !WriteRaises(steps[i])
      ensures !raised ==> report == ArchiveReport(CountVerified(steps, sha), EventsVerified(steps, sha),
                                                  CountVerified(steps, sha), FailuresOf(steps, sha))
    {
      hide Apply, Verified, ValidStep, IsExport, Run, CountVerified, EventsVerified, FailuresOf;
      ReportOfNone(sha, State());
      var batches: nat, total: nat, failures := 0, 0, [];
      raised, steps := false, [];
      var i := 0;
      while i < |orgs| && !raised
        invariant 0 <= i <= |orgs| && |steps| == i
        invariant forall k :: 0 <= k < i ==>
          ValidStep(steps[k]) && steps[k] == Step(events, orgs[k], now, steps[k].rows, batchIds(k), store(k))
        invariant State() == Run(old(State()), steps, sha)
        invariant raised <==> i > 0 && WriteRaises(steps[i - 1])
        invariant forall k :: 0 <= k < i - 1 ==> !WriteRaises(steps[k])
        invariant !raised ==> batches == CountVerified(steps, sha) && total == EventsVerified(steps, sha)
                              && failures == FailuresOf(steps, sha)
        decreases |orgs| - i
      {
        var rows := ExportWindow(events, orgs[i], now);
        var s := Step(events, orgs[i], now, rows, batchIds(i), store(i));
        StepValid(s);
        var verified;
        raised, verified := ArchiveOrg(s, sha);
        if verified {
          batches, total := batches + 1, total + |rows|;
        } else if rows != [] && !raised {
          failures := failures + [orgs[i]];
        }
        ReportGrows(steps, s, sha, old(State()));
        steps := steps + [s];
        i := i + 1;
      }
      report := ArchiveReport(batches, total, batches, failures);
    }
  }

  lemma ReportOfNone(sha: Digest, a: Archive)
    ensures CountVerified([], sha) == 0 && EventsVerified([], sha) == 0 && FailuresOf([], sha) == []
    ensures Run(a, [], sha) == a
  {}

  lemma ReportGrows(steps: seq<Step>, s: Step, sha: Digest, a: Archive)
    requires ValidStep(s) && forall i :: 0 <= i < |steps| ==> ValidStep(steps[i])
    ensures CountVerified(steps + [s], sha) == CountVerified(steps, sha) + if Verified(s, sha) then 1 else 0
    ensures EventsVerified(steps + [s], sha) == EventsVerified(steps, sha) + if Verified(s, sha) then |s.rows| else 0
    ensures FailuresOf(steps + [s], sha) ==
            FailuresOf(steps, sha) + if s.rows != [] && s.result.ReadBack? && !Verified(s, sha) then [s.org] else []
    ensures Run(a, steps + [s], sha) == Apply(Run(a, steps, sha), s, sha)
  {
    hide ValidStep, Verified, Apply;
    assert (steps + [s])[..|steps|] == steps;
  }

  lemma StepValid(s: Step)
    requires IsExport(s.events, s.org, s.now, s.rows)
    ensures ValidStep(s)
  {
  }
}
