/** The in-memory permission cache, and what it returns in terms of its history. */
module PermissionCache {
  import opened Options
  import opened Text

  const DEFAULT_TTL_SECONDS: int := 60

  type Permissions = set<string>

  datatype Entry = Entry(expiresAt: real, value: Permissions)

  type Entries = map<string, Entry>

  function Distance(a: int, b: int): nat {
    if a < b then b - a else a - b
  }

  /** The allowed lifetime that is nearest to the one asked for. */
  function ClampTtl(ttl: int): (r: int)
    ensures 0 <= r <= DEFAULT_TTL_SECONDS
    ensures forall t :: 0 <= t <= DEFAULT_TTL_SECONDS && t != r ==> Distance(ttl, r) < Distance(ttl, t)
  {
    if ttl < 0 then 0 else if ttl > DEFAULT_TTL_SECONDS then DEFAULT_TTL_SECONDS else ttl
  }

  /******* Runs *******/

  datatype Op =
    | Get(key: string, now: real)
    | Set(key: string, value: Permissions, ttl: int, now: real)
    | Invalidate(key: string)
    | Clear

  function Step(e: Entries, op: Op): Entries {
    match op
    case Get(key, now) => if key in e && now >= e[key].expiresAt then e - {key} else e
    case Set(key, value, ttl, now) => e[key := Entry(now + ClampTtl(ttl) as real, value)]
    case Invalidate(key) => e - {key}
    case Clear => map[]
  }

  function Lookup(e: Entries, key: string, now: real): Option<Permissions> {
    if key in e && now < e[key].expiresAt then Some(e[key].value) else None
  }

  function Run(ops: seq<Op>): Entries {
    if ops == [] then map[] else Step(Run(ops[..|ops| - 1]), ops[|ops| - 1])
  }

  /** The operation that last decided what the key holds: a set, or a removal. */
  function LastWrite(ops: seq<Op>, key: string): Option<Op> {
    if ops == [] then None
    else
      var op := ops[|ops| - 1];
      if op.Clear? || (!op.Get? && op.key == key) then Some(op) else LastWrite(ops[..|ops| - 1], key)
  }

  predicate Timed(op: Op) {
    op.Get? || op.Set?
  }

  /** The monotonic clock, up to and including a read at `now`. */
  predicate Monotone(ops: seq<Op>, now: real) {
    && (forall i, j :: 0 <= i < j < |ops| && Timed(ops[i]) && Timed(ops[j]) ==> ops[i].now <= ops[j].now)
    && (forall i :: 0 <= i < |ops| && Timed(ops[i]) ==> ops[i].now <= now)
  }

  /** Whether the last write of the key still counts at `now`. */
  function Expected(ops: seq<Op>, key: string, now: real): Option<Permissions> {
    var w := LastWrite(ops, key);
    if w.Some? && w.value.Set? && now - w.value.now < ClampTtl(w.value.ttl) as real then Some(w.value.value) else None
  }

  lemma {:induction false} EntryIsLastWrite(ops: seq<Op>, key: string)
    ensures key in Run(ops) ==>
      var w := LastWrite(ops, key);
      && w.Some? && w.value.Set? && w.value in ops
      && Run(ops)[key] == Entry(w.value.now + ClampTtl(w.value.ttl) as real, w.value.value)
  {
    if ops != [] { EntryIsLastWrite(ops[..|ops| - 1], key); }
  }

  /** A set that is missing from the table had expired by some earlier read. */
  lemma {:induction false} MissingIsExpired(ops: seq<Op>, key: string, now: real)
    requires Monotone(ops, now) && key !in Run(ops)
    ensures
      var w := LastWrite(ops, key);
      w.Some? && w.value.Set? ==> now - w.value.now >= ClampTtl(w.value.ttl) as real
  {
    if ops != [] {
      var n := |ops| - 1;
      var before, op := ops[..n], ops[n];
      EntryIsLastWrite(before, key);
      if op.Get? || op.Set? || (op.Invalidate? && op.key != key) {
        if key !in Run(before) { MissingIsExpired(before, key, now); }
      }
    }
  }

  /** The cache against its history: a read gives the last write exactly while its clamped lifetime lasts. */
  lemma ReadsLastWrite(ops: seq<Op>, key: string, now: real)
    requires Monotone(ops, now)
    ensures Lookup(Run(ops), key, now) == Expected(ops, key, now)
  {
    EntryIsLastWrite(ops, key);
    if key !in Run(ops) { MissingIsExpired(ops, key, now); }
  }

  /** No grant outlives its write by a minute, whatever lifetime the caller asked for. */
  lemma StaleWithinAMinute(ops: seq<Op>, key: string, now: real)
    requires Monotone(ops, now) && Lookup(Run(ops), key, now).Some?
    ensures exists i :: 0 <= i < |ops| && ops[i].Set? && ops[i].key == key
                        && Some(ops[i].value) == Lookup(Run(ops), key, now)
                        && now - ops[i].now < 60.0
  {
    ReadsLastWrite(ops, key, now);
    EntryIsLastWrite(ops, key);
    LastWriteHasKey(ops, key);
    var w := LastWrite(ops, key).value;
    var i :| 0 <= i < |ops| && ops[i] == w;
  }

  lemma {:induction false} LastWriteHasKey(ops: seq<Op>, key: string)
    ensures LastWrite(ops, key).Some? && LastWrite(ops, key).value.Set? ==> LastWrite(ops, key).value.key == key
  {
    if ops != [] { LastWriteHasKey(ops[..|ops| - 1], key); }
  }

  /******* Keys *******/

  function OrgKey(org: string, kind: string, id: string): string {
    "authz:" + (org + [':'] + (kind + [':'] + id))
  }

  function SystemKey(id: string): string {
    "authz:system:" + id
  }

  /** Org keys tell principals apart when org and kind contain no colon; the principal id is free. */
  lemma OrgKeyInjective(o1: string, k1: string, i1: string, o2: string, k2: string, i2: string)
    requires ':' !in o1 && ':' !in o2 && ':' !in k1 && ':' !in k2
    requires OrgKey(o1, k1, i1) == OrgKey(o2, k2, i2)
    ensures o1 == o2 && k1 == k2 && i1 == i2
  {
    var r1, r2 := k1 + [':'] + i1, k2 + [':'] + i2;
    assert OrgKey(o1, k1, i1)[6..] == o1 + [':'] + r1 && OrgKey(o2, k2, i2)[6..] == o2 + [':'] + r2;
    PartitionOf(o1, ':', r1);
    PartitionOf(o2, ':', r2);
    PartitionOf(k1, ':', i1);
    PartitionOf(k2, ':', i2);
  }

  /** An org key is a system key exactly if the org is "system" or starts with "system:", and the rest is the admin. */
  lemma OrgMeetsSystemIff(org: string, kind: string, id: string, admin: string)
    ensures OrgKey(org, kind, id) == SystemKey(admin) <==>
            (org == "system" || "system:" <= org) && admin == (org + [':'] + (kind + [':'] + id))[7..]
  {
    var all := org + [':'] + (kind + [':'] + id);
    assert OrgKey(org, kind, id)[6..] == all && SystemKey(admin)[6..] == "system:" + admin;
    assert all[..|org|] == org && all[|org|] == ':';
    if "system:" <= all {
      assert all[..7] == "system:";
      if |org| >= 7 { assert org[..7] == all[..7]; }
      if |org| == 6 { assert org == all[..6]; }
      assert org == "system" || "system:" <= org;
    }
    if org == "system" || "system:" <= org {
      assert "system:" <= all && all == "system:" + all[7..];
    }
  }

  /** No tenant key, whatever its org, is the key of a system admin whose id contains no colon. */
  lemma SystemKeysApart(org: string, kind: string, id: string, admin: string)
    requires ':' !in admin
    ensures OrgKey(org, kind, id) != SystemKey(admin)
  {
    var all := org + [':'] + (kind + [':'] + id);
    OrgMeetsSystemIff(org, kind, id, admin);
    if org == "system" || "system:" <= org {
      var at := |org| + 1 + |kind| - 7;  // the colon after the kind, in the rest
      assert all[7..][at] == ':';
      assert ':' in all[7..];
    }
  }

  /** Exactly: some tenant key meets the key of an admin if and only if the admin's id contains a colon. */
  lemma SystemKeyMetIff(admin: string)
    ensures (exists org, kind, id :: OrgKey(org, kind, id) == SystemKey(admin)) <==> ':' in admin
  {
    if ':' in admin {
      PartitionSplits(admin, ':');
      var parts := Partition(admin, ':').value;
      var rest := parts.0 + [':'] + parts.1;
      OrgMeetsSystemIff("system", parts.0, parts.1, admin);
      assert ("system" + [':'] + rest)[7..] == rest;
      assert OrgKey("system", parts.0, parts.1) == SystemKey(admin);
    } else {
      forall org, kind, id ensures OrgKey(org, kind, id) != SystemKey(admin) {
        SystemKeysApart(org, kind, id, admin);
      }
    }
  }

  /******* The cache object *******/

  class InMemoryPermissionCache {
    var entries: Entries

    constructor ()
      ensures entries == map[]
    {
      entries := map[];
    }

    method GetPermissions(key: string, now: real) returns (value: Option<Permissions>)
      modifies this
      ensures entries == Step(old(entries), Get(key, now)) && value == Lookup(old(entries), key, now)
      ensures key in entries ==> now < entries[key].expiresAt
    {
      if key !in entries { return None; }
      var entry := entries[key];
      if now >= entry.expiresAt {
        entries := entries - {key};
        return None;
      }
      return Some(entry.value);
    }

    method SetPermissions(key: string, value: Permissions, ttl: int, now: real)
      modifies this
      ensures entries == Step(old(entries), Set(key, value, ttl, now))
    {
      entries := entries[key := Entry(now + ClampTtl(ttl) as real, value)];
    }

    method InvalidateKey(key: string)
      modifies this
      ensures entries == Step(old(entries), Invalidate(key))
    {
      entries := entries - {key};
    }

    method ClearAll()
      modifies this
      ensures entries == Step(old(entries), Clear)
    {
      entries := map[];
    }
  }
}
