/** An optional value, standing for a nullable column or an absent result. */
module Wrappers {
  datatype Option<+T> = None | Some(value: T) {
    function GetOr(default: T): T {
      if Some? then value else default
    }
  }
}

/**
 Rows by id and time: sorting a set of them, and selecting the first few under a limit.
 */
module Ordering {
  /** Identifiers are used for equality and order only. */
  type Id = nat

  /** Ticks of the database clock. */
  type Instant = int

  predicate Distinct<T(==)>(s: seq<T>) {
    forall i, j :: 0 <= i < j < |s| ==> s[i] != s[j]
  }

  // ---------- sorting by time, then id ----------

  predicate Earlier(time: map<Id, Instant>, a: Id, b: Id) {
    a in time && b in time && (time[a] < time[b] || (time[a] == time[b] && a < b))
  }

  ghost predicate InOrder(time: map<Id, Instant>, order: seq<Id>) {
    forall i, j :: 0 <= i < j < |order| ==> Earlier(time, order[i], order[j])
  }

  ghost predicate Lists(order: seq<Id>, ids: set<Id>) {
    Distinct(order) && forall id :: id in order <==> id in ids
  }

  ghost predicate Earliest(time: map<Id, Instant>, ids: set<Id>, a: Id) {
    a in ids && forall b <- ids :: b == a || Earlier(time, a, b)
  }

  lemma {:induction false} EarliestExists(time: map<Id, Instant>, ids: set<Id>) returns (first: Id)
    requires ids != {} && ids <= time.Keys
    ensures Earliest(time, ids, first)
    decreases |ids|
  {
    var x :| x in ids;
    first := x;
    if ids - {x} != {} {
      var a := EarliestExists(time, ids - {x});
      if Earlier(time, a, x) { first := a; }
      forall b | b in ids
        ensures b == first || Earlier(time, first, b)
      {
        assert b == x || b in ids - {x};
      }
    }
  }

  method Sort(time: map<Id, Instant>, ids: set<Id>) returns (order: seq<Id>)
    requires ids <= time.Keys
    ensures InOrder(time, order) && Lists(order, ids)
  {
    order := [];
    var rest := ids;
    while rest != {}
      invariant rest <= ids && InOrder(time, order) && Lists(order, ids - rest)
      invariant forall a <- order, b <- rest :: Earlier(time, a, b)
      decreases rest
    {
      ghost var first := EarliestExists(time, rest);
      assert Earliest(time, rest, first);
      var id :| id in rest && forall b <- rest :: b == id || Earlier(time, id, b);
      order := order + [id];
      rest := rest - {id};
    }
  }

  /** A set of rows has one order. */
  lemma {:induction false} OrderIsUnique(time: map<Id, Instant>, a: seq<Id>, b: seq<Id>, ids: set<Id>)
    requires InOrder(time, a) && InOrder(time, b) && Lists(a, ids) && Lists(b, ids)
    ensures a == b
    decreases |a|
  {
    assert a != [] ==> a[0] in b;
    assert b != [] ==> b[0] in a;
    if a != [] {
      assert a[0] == b[0];
      TailLists(a, ids);
      TailLists(b, ids);
      OrderIsUnique(time, a[1..], b[1..], ids - {a[0]});
      assert a == [a[0]] + a[1..] && b == [b[0]] + b[1..];
    }
  }

  lemma TailLists(order: seq<Id>, ids: set<Id>)
    requires Lists(order, ids) && order != []
    ensures Lists(order[1..], ids - {order[0]})
  {
    assert order == [order[0]] + order[1..];
  }

  // ---------- selecting under a limit ----------

  /** `chosen` is what ORDER BY `before` LIMIT `limit` may return from `among`. */
  ghost predicate FirstBy(chosen: set<Id>, among: set<Id>, limit: nat, before: (Id, Id) -> bool) {
    && chosen <= among
    && |chosen| == (if limit < |among| then limit else |among|)
    && forall a, b :: a in chosen && b in among && b !in chosen ==> !before(b, a)
  }

  ghost predicate StrictOrder(before: (Id, Id) -> bool) {
    && (forall a :: !before(a, a))
    && (forall a, b, c :: before(a, b) && before(b, c) ==> before(a, c))
  }

  lemma {:induction false} MinimalExists(among: set<Id>, before: (Id, Id) -> bool) returns (least: Id)
    requires StrictOrder(before) && among != {}
    ensures least in among && forall b <- among :: !before(b, least)
    decreases |among|
  {
    least :| least in among;
    if exists b :: b in among && before(b, least) {
      var x := least;
      var y := MinimalExists(among - {x}, before);
      least := if before(x, y) then x else y;
      assert forall b <- among :: b == x || b in among - {x};
    }
  }

  lemma {:induction false} FirstByExists(among: set<Id>, limit: nat, before: (Id, Id) -> bool) returns (chosen: set<Id>)
    requires StrictOrder(before)
    ensures FirstBy(chosen, among, limit, before)
    decreases limit
  {
    if limit == 0 {
      chosen := {};
    } else {
      chosen := FirstByExists(among, limit - 1, before);
      if chosen != among {
        SubsetSize(chosen, among);
        if |chosen| == |among| { SameSizeSubset(chosen, among); }
        assert among == chosen + (among - chosen);
        var least := MinimalExists(among - chosen, before);
        chosen := chosen + {least};
      }
    }
  }

  /** Rows taken from `live` when `live` and `dead` compete for the same ordered limit. */
  lemma LiveShare(live: set<Id>, dead: set<Id>, due: set<Id>, limit: nat, share: nat, before: (Id, Id) -> bool)
    requires live !! dead && |dead| <= share <= limit
    requires FirstBy(due, live + dead, limit, before)
    ensures |due * dead| <= share
    ensures |due * live| >= (if |live| < limit - share then |live| else limit - share)
  {
    assert due == due * live + due * dead;
    assert |due * live + due * dead| == |due * live| + |due * dead|;
    assert |live + dead| == |live| + |dead|;
    SubsetSize(due * dead, dead);
    SubsetSize(due * live, live);
    if |due| == |live + dead| {
      SameSizeSubset(due, live + dead);
      assert due * live == live;
    }
  }

  lemma SubsetSize<T>(a: set<T>, b: set<T>)
    requires a <= b
    ensures |a| <= |b|
  {
    assert b == a + (b - a);
  }

  lemma SameSizeSubset<T>(a: set<T>, b: set<T>)
    requires a <= b && |a| == |b|
    ensures a == b
  {
    assert b == a + (b - a);
    assert |b - a| == 0;
  }
}
