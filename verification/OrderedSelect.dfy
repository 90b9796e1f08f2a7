/** `ORDER BY rank, id LIMIT n`, as both the outbox claim and the archive export use it. */
module OrderedSelect {
  type Id = nat

  predicate Earlier(rank: map<Id, int>, a: Id, b: Id)
    requires a in rank && b in rank
  {
    rank[a] < rank[b] || (rank[a] == rank[b] && a < b)
  }

  function AtMost(limit: int, n: nat): nat {
    if limit < 0 then 0 else if limit < n then limit else n
  }

  /** `ids` are the first `limit` keys, in order. */
  predicate FirstInOrder(rank: map<Id, int>, ids: seq<Id>, limit: int) {
    && |ids| == AtMost(limit, |rank.Keys|)
    && (forall i :: 0 <= i < |ids| ==> ids[i] in rank)
    && (forall i, j :: 0 <= i < j < |ids| ==> Earlier(rank, ids[i], ids[j]))
    && (forall i, r :: 0 <= i < |ids| && r in rank && r !in ids ==> Earlier(rank, ids[i], r))
  }

  /** The selection is determined by the table. */
  lemma {:induction false} FirstInOrderUnique(rank: map<Id, int>, a: seq<Id>, b: seq<Id>, limit: int, n: nat)
    requires FirstInOrder(rank, a, limit) && FirstInOrder(rank, b, limit) && n <= |a|
    ensures a[..n] == b[..n]
  {
    if n > 0 {
      FirstInOrderUnique(rank, a, b, limit, n - 1);
      var i := n - 1;
      forall k | 0 <= k < i ensures a[k] == b[k] { assert a[..i][k] == b[..i][k]; }
      if a[i] != b[i] {
        assert Earlier(rank, b[i], a[i]) by {
          if a[i] in b { var j :| 0 <= j < |b| && b[j] == a[i]; }
        }
        assert Earlier(rank, a[i], b[i]) by {
          if b[i] in a { var j :| 0 <= j < |a| && a[j] == b[i]; }
        }
        assert false;
      }
      assert a[..n] == a[..i] + [a[i]] && b[..n] == b[..i] + [b[i]];
    }
  }

  /** `ids` are the first keys in order, `rest` the others. */
  predicate Selected(rank: map<Id, int>, rest: set<Id>, ids: seq<Id>) {
    && rest <= rank.Keys
    && |ids| + |rest| == |rank.Keys|
    && (forall i :: 0 <= i < |ids| ==> ids[i] in rank && ids[i] !in rest)
    && (forall r :: r in rank && r !in rest ==> r in ids)
    && (forall i, j :: 0 <= i < j < |ids| ==> Earlier(rank, ids[i], ids[j]))
    && (forall i, r :: 0 <= i < |ids| && r in rest ==> Earlier(rank, ids[i], r))
  }

  method SelectFirst(rank: map<Id, int>, limit: int) returns (ids: seq<Id>)
    ensures FirstInOrder(rank, ids, limit)
    ensures forall i, j :: 0 <= i < j < |ids| ==>
      rank[ids[i]] < rank[ids[j]] || (rank[ids[i]] == rank[ids[j]] && ids[i] < ids[j])
    ensures forall i, r :: 0 <= i < |ids| && r in rank && r !in ids ==>
      rank[ids[i]] < rank[r] || (rank[ids[i]] == rank[r] && ids[i] < r)
  {
    ids := [];
    var rest := rank.Keys;
    while rest != {} && |ids| < limit
      invariant Selected(rank, rest, ids)
      invariant |ids| <= AtMost(limit, |rank.Keys|)
      decreases rest
    {
      var first := EarliestOf(rank, rest);
      SelectNext(rank, rest, ids, first);
      rest := rest - {first};
      ids := ids + [first];
    }
  }

  method EarliestOf(rank: map<Id, int>, rest: set<Id>) returns (first: Id)
    requires rest != {} && rest <= rank.Keys
    ensures first in rest && forall r :: r in rest && r != first ==> Earlier(rank, first, r)
  {
    first :| first in rest;
    var todo := rest - {first};
    while todo != {}
      invariant first in rest && todo <= rest
      invariant forall r :: r in rest && r !in todo && r != first ==> Earlier(rank, first, r)
      decreases todo
    {
      var r :| r in todo;
      if Earlier(rank, r, first) { first := r; }
      todo := todo - {r};
    }
  }

  lemma SelectNext(rank: map<Id, int>, rest: set<Id>, ids: seq<Id>, first: Id)
    requires Selected(rank, rest, ids) && first in rest
    requires forall r :: r in rest && r != first ==> Earlier(rank, first, r)
    ensures Selected(rank, rest - {first}, ids + [first])
  {
    var ids' := ids + [first];
    assert ids'[|ids|] == first;
    forall r | r in rank && r !in rest - {first} ensures r in ids' {
      if r != first { assert r in ids; }
    }
  }
}
