/**
 The outbox table and the row effect of each statement the repository sends to it.

 A statement is one atomic step.  `now` is the start of its transaction and `clock` the database
 clock when it runs: they differ only inside a longer transaction, where `now` may be older.
 */
module OutboxRepository {
  import opened Wrappers
  import opened Ordering
  import opened Lease

  type EventType = string
  type Handler = string

  const OUTBOX_EVENT_DEAD: EventType := "outbox.event_dead"

  datatype Row = Row(
    eventType: EventType,
    aggregateId: Id,
    occurredAt: Instant,
    dispatchedAt: Option<Instant>,
    attempts: int,
    lastError: Option<string>,
    nextAttemptAt: Option<Instant>,
    deadAt: Option<Instant>,
    deliveries: map<Handler, Instant>)

  type Table = map<Id, Row>

  /** What a claim hands to the relay: the row as updated, with the `deadAt` it was picked with. */
  datatype Record = Record(
    id: Id,
    eventType: EventType,
    aggregateId: Id,
    occurredAt: Instant,
    attempts: int,
    deadAt: Option<Instant>,
    deliveries: map<Handler, Instant>)

  datatype Event = Event(eventType: EventType, aggregateId: Id, occurredAt: Instant)

  datatype LeaseKey = LeaseKey(id: Id, attempts: int)

  datatype Failure = Failure(lastError: string, retryAfter: int, dead: bool, deliveries: map<Handler, Instant>)

  datatype ClaimRequest = ClaimRequest(limit: nat, eventTypes: set<EventType>, lease: nat)

  /** The rows of the three CTEs of a claim. */
  datatype Pick = Pick(live: set<Id>, dead: set<Id>, due: set<Id>)

  // ---------- row predicates ----------

  predicate LiveRow(row: Row) {
    row.dispatchedAt.None? && row.deadAt.None?
  }

  predicate DeadRow(row: Row) {
    row.dispatchedAt.None? && row.deadAt.Some?
  }

  predicate LiveDue(row: Row, eventTypes: set<EventType>, now: Instant) {
    LiveRow(row) && row.eventType in eventTypes && IsDue(row.nextAttemptAt, now)
  }

  predicate DeadDue(row: Row, eventTypes: set<EventType>, now: Instant) {
    DeadRow(row) && row.eventType in eventTypes && IsDeadDue(row.nextAttemptAt, now)
  }

  predicate Claimable(row: Row, eventTypes: set<EventType>, now: Instant) {
    LiveDue(row, eventTypes, now) || DeadDue(row, eventTypes, now)
  }

  predicate Leased(t: Table, lease: LeaseKey) {
    lease.id in t && t[lease.id].attempts == lease.attempts && t[lease.id].dispatchedAt.None?
  }

  /** The lease columns of a row. */
  function ColumnsOf(row: Row): Columns {
    Columns(row.attempts, row.dispatchedAt.Some?, row.nextAttemptAt)
  }

  // ---------- the claim ----------

  /** Order of the outbox: occurrence, then id. */
  function OccurredAt(t: Table): map<Id, Instant> {
    map id | id in t :: t[id].occurredAt
  }

  predicate Older(t: Table, a: Id, b: Id) {
    Earlier(OccurredAt(t), a, b)
  }

  predicate RetriedSooner(t: Table, a: Id, b: Id) {
    a in t && b in t && t[a].nextAttemptAt.Some? && t[b].nextAttemptAt.Some?
    && t[a].nextAttemptAt.value < t[b].nextAttemptAt.value
  }

  function FreeLive(t: Table, request: ClaimRequest, now: Instant, locked: set<Id>): set<Id> {
    set id | id in t && id !in locked && LiveDue(t[id], request.eventTypes, now)
  }

  function FreeDead(t: Table, request: ClaimRequest, now: Instant, locked: set<Id>): set<Id> {
    set id | id in t && id !in locked && DeadDue(t[id], request.eventTypes, now)
  }

  /** `pick` is what the claim may select while other transactions hold `locked`. */
  ghost predicate IsPick(t: Table, request: ClaimRequest, now: Instant, locked: set<Id>, pick: Pick) {
    var older := (a: Id, b: Id) => Older(t, a, b);
    && FirstBy(pick.live, FreeLive(t, request, now, locked), request.limit, older)
    && FirstBy(pick.dead, FreeDead(t, request, now, locked), DeadShareOf(request.limit), (a: Id, b: Id) => RetriedSooner(t, a, b))
    && FirstBy(pick.due, pick.live + pick.dead, request.limit, older)
  }

  function ClaimedRow(row: Row, now: Instant, lease: nat): Row {
    var c := Claimed(ColumnsOf(row), now, lease);
    row.(attempts := c.attempts, nextAttemptAt := c.nextAttemptAt)
  }

  function ClaimRows(t: Table, due: set<Id>, now: Instant, lease: nat): Table {
    map id | id in t :: if id in due then ClaimedRow(t[id], now, lease) else t[id]
  }

  function RecordOf(t: Table, id: Id): Record
    requires id in t
  {
    var r := t[id];
    Record(id, r.eventType, r.aggregateId, r.occurredAt, r.attempts + 1, r.deadAt, r.deliveries)
  }

  function KeyOf(record: Record): LeaseKey {
    LeaseKey(record.id, record.attempts)
  }

  /** A claim takes only claimable rows that nobody held locked: undelivered, of its types, and due; dead ones by a time. */
  lemma PickIsClaimable(t: Table, request: ClaimRequest, now: Instant, locked: set<Id>, pick: Pick, id: Id)
    requires IsPick(t, request, now, locked, pick) && id in pick.due
    ensures id in t && id !in locked && Claimable(t[id], request.eventTypes, now)
    ensures t[id].dispatchedAt.None? && t[id].eventType in request.eventTypes
    ensures t[id].nextAttemptAt.Some? || t[id].deadAt.None?
    ensures t[id].nextAttemptAt.Some? ==> t[id].nextAttemptAt.value <= now
  {
  }

  /**
   Dead replays never starve live rows; no live row overtakes one that occurred before it, no dead row one
   that was due sooner, and what the limit cuts off is the latest.
   */
  lemma ClaimNeverStarvesLive(t: Table, request: ClaimRequest, now: Instant, locked: set<Id>, pick: Pick)
    requires IsPick(t, request, now, locked, pick)
    ensures var live, dead, limit := FreeLive(t, request, now, locked), FreeDead(t, request, now, locked), request.limit;
      && (forall id :: id in live <==>
            && id in t && id !in locked && t[id].dispatchedAt.None? && t[id].deadAt.None?
            && t[id].eventType in request.eventTypes && (t[id].nextAttemptAt.Some? ==> t[id].nextAttemptAt.value <= now))
      && (forall id :: id in dead <==>
            && id in t && id !in locked && t[id].dispatchedAt.None? && t[id].deadAt.Some?
            && t[id].eventType in request.eventTypes && t[id].nextAttemptAt.Some? && t[id].nextAttemptAt.value <= now)
      && |pick.due| <= limit
      && |pick.due * dead| <= DeadShareOf(limit)
      && |pick.due * live| >= (if |live| < limit - DeadShareOf(limit) then |live| else limit - DeadShareOf(limit))
      && (forall a, b | a in live && b in live && b in pick.due ::
            t[a].occurredAt < t[b].occurredAt || (t[a].occurredAt == t[b].occurredAt && a < b) ==> a in pick.due)
      && (forall a, b | a in pick.live + pick.dead && b in pick.due ::
            t[a].occurredAt < t[b].occurredAt || (t[a].occurredAt == t[b].occurredAt && a < b) ==> a in pick.due)
      && (forall a, b | a in dead && b in pick.dead ::
            t[a].nextAttemptAt.value < t[b].nextAttemptAt.value ==> a in pick.dead)
  {
    var live, dead, limit := FreeLive(t, request, now, locked), FreeDead(t, request, now, locked), request.limit;
    var older := (a: Id, b: Id) => Older(t, a, b);
    LiveShare(pick.live, pick.dead, pick.due, limit, DeadShareOf(limit), older);
    assert pick.due * dead == pick.due * pick.dead;
    assert pick.due * live == pick.due * pick.live;
    forall a, b | b in pick.due && a in t && (a in live || a in pick.dead)
                  && (t[a].occurredAt < t[b].occurredAt || (t[a].occurredAt == t[b].occurredAt && a < b))
      ensures b in live || a in pick.live + pick.dead ==> a in pick.due
    {
      assert older(a, b);
      assert b in live ==> a in pick.live + pick.dead;
    }
    var sooner := (a: Id, b: Id) => RetriedSooner(t, a, b);
    forall a, b | b in pick.dead && a in dead && t[a].nextAttemptAt.value < t[b].nextAttemptAt.value
      ensures a in pick.dead
    {
      assert sooner(a, b);
    }
  }

  /** Whatever is locked, the database always has an answer to a claim. */
  lemma PickExists(t: Table, request: ClaimRequest, now: Instant, locked: set<Id>) returns (pick: Pick)
    ensures IsPick(t, request, now, locked, pick)
  {
    var older := (a: Id, b: Id) => Older(t, a, b);
    var sooner := (a: Id, b: Id) => RetriedSooner(t, a, b);
    var live := FirstByExists(FreeLive(t, request, now, locked), request.limit, older);
    var dead := FirstByExists(FreeDead(t, request, now, locked), DeadShareOf(request.limit), sooner);
    var due := FirstByExists(live + dead, request.limit, older);
    pick := Pick(live, dead, due);
  }

  // ---------- the wait until something is due ----------

  /** What an aggregate minimum over `waits` returns. */
  ghost predicate IsLeast(least: Option<int>, waits: set<int>) {
    match least
    case None => waits == {}
    case Some(w) => w in waits && forall x <- waits :: w <= x
  }

  /** Live rows without a time are due now. */
  function LiveWaits(t: Table, eventTypes: set<EventType>, now: Instant): set<int> {
    set id | id in t && LiveRow(t[id]) && t[id].eventType in eventTypes :: t[id].nextAttemptAt.GetOr(now) - now
  }

  function DeadWaits(t: Table, eventTypes: set<EventType>, now: Instant): set<int> {
    set id | id in t && DeadRow(t[id]) && t[id].eventType in eventTypes && t[id].nextAttemptAt.Some? ::
      t[id].nextAttemptAt.value - now
  }

  function NonNegative(wait: Option<int>): Option<int> {
    if wait.Some? && wait.value < 0 then Some(0) else wait
  }

  function DueIn(live: Option<int>, dead: Option<int>): Option<int> {
    var l, d := NonNegative(live), NonNegative(dead);
    if l.Some? then Some(if d.GetOr(l.value) < l.value then d.value else l.value) else d
  }

  /** The wait reported is exactly the time until a claim would find something, if nothing else is written. */
  lemma DueInIsFirstClaim(t: Table, eventTypes: set<EventType>, now: Instant, live: Option<int>, dead: Option<int>, wait: nat)
    requires IsLeast(live, LiveWaits(t, eventTypes, now)) && IsLeast(dead, DeadWaits(t, eventTypes, now))
    ensures (exists id :: id in t && Claimable(t[id], eventTypes, now + wait)) <==>
            DueIn(live, dead).Some? && DueIn(live, dead).value <= wait
    ensures DueIn(live, dead).Some? ==> DueIn(live, dead).value >= 0
  {
    if live.Some? {
      var id :| id in t && LiveRow(t[id]) && t[id].eventType in eventTypes && t[id].nextAttemptAt.GetOr(now) - now == live.value;
      assert live.value <= wait ==> Claimable(t[id], eventTypes, now + wait);
    }
    if dead.Some? {
      var id :| id in t && DeadRow(t[id]) && t[id].eventType in eventTypes && t[id].nextAttemptAt.Some?
        && t[id].nextAttemptAt.value - now == dead.value;
      assert dead.value <= wait ==> Claimable(t[id], eventTypes, now + wait);
    }
    forall id | id in t && Claimable(t[id], eventTypes, now + wait)
      ensures DueIn(live, dead).Some? && DueIn(live, dead).value <= wait
    {
      if LiveRow(t[id]) {
        assert t[id].nextAttemptAt.GetOr(now) - now in LiveWaits(t, eventTypes, now);
      } else {
        assert t[id].nextAttemptAt.value - now in DeadWaits(t, eventTypes, now);
      }
    }
  }

  // ---------- the settling statements ----------

  function MarkDelivered(t: Table, lease: LeaseKey, deliveries: map<Handler, Instant>, now: Instant): Table {
    if !Leased(t, lease) then t
    else
      var row := t[lease.id];
      t[lease.id := row.(dispatchedAt := Some(now), nextAttemptAt := None, deadAt := None,
                         deliveries := row.deliveries + deliveries)]
  }

  function MarkFailed(t: Table, lease: LeaseKey, failure: Failure, now: Instant): Table {
    if !Leased(t, lease) then t
    else
      var row := t[lease.id];
      t[lease.id := row.(lastError := Some(failure.lastError), nextAttemptAt := Some(now + failure.retryAfter),
                         deliveries := row.deliveries + failure.deliveries,
                         deadAt := if failure.dead then Some(row.deadAt.GetOr(now)) else row.deadAt)]
  }

  function Release(t: Table, lease: LeaseKey, now: Instant): Table {
    if !Leased(t, lease) then t
    else
      var c := Released(ColumnsOf(t[lease.id]), now);
      t[lease.id := t[lease.id].(attempts := c.attempts, nextAttemptAt := c.nextAttemptAt)]
  }

  function Requeued(t: Table, ids: set<Id>, lease: nat, clock: Instant): set<Id> {
    set id | id in t && id in ids && DeadRow(t[id]) && t[id].nextAttemptAt.Some?
          && t[id].nextAttemptAt.value > clock + lease
  }

  function RequeueDead(t: Table, ids: set<Id>, lease: nat, now: Instant, clock: Instant): Table {
    map id | id in t ::
      if id in Requeued(t, ids, lease, clock) then t[id].(nextAttemptAt := Some(now)) else t[id]
  }

  function Inserted(event: Event): Row {
    Row(event.eventType, event.aggregateId, event.occurredAt, None, 0, None, None, None, map[])
  }

  /** An id already present leaves the table as it was. */
  function Enqueue(t: Table, id: Id, event: Event): Table {
    if id in t then t else t[id := Inserted(event)]
  }

  // ---------- what the statements mean to each other ----------

  /** A claim raises the token and the due time of the rows it takes and nothing else, and its records show the rows as they then are. */
  lemma ClaimRaisesTokens(t: Table, due: set<Id>, now: Instant, lease: nat, id: Id)
    requires id in t
    ensures var after := ClaimRows(t, due, now, lease);
      && after.Keys == t.Keys
      && (id !in due ==> after[id] == t[id])
      && (id in due ==> after[id] == t[id].(attempts := t[id].attempts + 1, nextAttemptAt := Some(now + lease)))
      && var row := after[id];
         id in due ==>
           RecordOf(t, id) == Record(id, row.eventType, row.aggregateId, row.occurredAt, row.attempts, row.deadAt, row.deliveries)
  {
  }

  /** A release takes back what the claim did: only the time the row is due differs. */
  lemma ReleaseUndoesClaim(t: Table, due: set<Id>, id: Id, claimedAt: Instant, lease: nat, now: Instant)
    requires id in due && id in t && t[id].dispatchedAt.None?
    ensures var claimed := ClaimRows(t, due, claimedAt, lease);
            var after := Release(claimed, KeyOf(RecordOf(t, id)), now);
      && after[id] == t[id].(nextAttemptAt := Some(now))
      && (LiveRow(t[id]) ==> LiveDue(after[id], {t[id].eventType}, now))
      && forall other <- t :: other != id ==> after[other] == claimed[other]
  {
  }

  /** The rest of a table is untouched. */
  ghost predicate OnlyRow(t: Table, after: Table, id: Id) {
    after.Keys == t.Keys && forall other <- t :: other != id ==> after[other] == t[other]
  }

  /** Handler by handler: what a turn delivered is recorded at its time, what was recorded before stays. */
  ghost predicate Merged(before: map<Handler, Instant>, added: map<Handler, Instant>, after: map<Handler, Instant>) {
    && (forall h :: h in after <==> h in before || h in added)
    && (forall h <- after :: after[h] == if h in added then added[h] else before[h])
  }

  /** A settlement whose lease is lost writes nothing. */
  lemma LostLeaseWritesNothing(t: Table, lease: LeaseKey, deliveries: map<Handler, Instant>, failure: Failure, now: Instant)
    requires lease.id !in t || t[lease.id].attempts != lease.attempts || t[lease.id].dispatchedAt.Some?
    ensures MarkDelivered(t, lease, deliveries, now) == t && MarkFailed(t, lease, failure, now) == t
    ensures Release(t, lease, now) == t
  {
  }

  /** A delivered row is closed: it is neither live nor dead, and no settlement, retry or requeue changes it again. */
  lemma DeliveryCloses(t: Table, lease: LeaseKey, deliveries: map<Handler, Instant>, now: Instant)
    requires Leased(t, lease)
    ensures var row, after := t[lease.id], MarkDelivered(t, lease, deliveries, now);
      && OnlyRow(t, after, lease.id)
      && after[lease.id].dispatchedAt == Some(now) && !LiveRow(after[lease.id]) && !DeadRow(after[lease.id])
      && Merged(row.deliveries, deliveries, after[lease.id].deliveries)
      && after[lease.id] == row.(dispatchedAt := Some(now), nextAttemptAt := None, deadAt := None,
                                 deliveries := after[lease.id].deliveries)
      && (forall other: LeaseKey, d, at :: other.id == lease.id ==> MarkDelivered(after, other, d, at) == after)
      && (forall other: LeaseKey, f, at :: other.id == lease.id ==> MarkFailed(after, other, f, at) == after)
      && (forall other: LeaseKey, at :: other.id == lease.id ==> Release(after, other, at) == after)
      && (forall ids, l, clock :: lease.id !in Requeued(after, ids, l, clock))
  {
  }

  /**
   A failed row carries the error, waits out its retry, keeps its token, its first death and what its turn
   delivered, and is dead only if it was or just became so.
   */
  lemma FailureWaits(t: Table, lease: LeaseKey, failure: Failure, now: Instant, later: Instant)
    requires Leased(t, lease)
    ensures var row, after := t[lease.id], MarkFailed(t, lease, failure, now);
      && OnlyRow(t, after, lease.id) && Leased(after, lease)
      && (Claimable(after[lease.id], {row.eventType}, later) <==> now + failure.retryAfter <= later)
      && (DeadRow(after[lease.id]) <==> DeadRow(row) || failure.dead)
      && after[lease.id].deadAt == (if failure.dead && row.deadAt.None? then Some(now) else row.deadAt)
      && Merged(row.deliveries, failure.deliveries, after[lease.id].deliveries)
      && after[lease.id] == row.(lastError := Some(failure.lastError), nextAttemptAt := Some(now + failure.retryAfter),
                                 deadAt := after[lease.id].deadAt, deliveries := after[lease.id].deliveries)
  {
  }

  /** A requeue makes exactly the named dead rows claimable that would not have been within a lease, and touches no other. */
  lemma RequeueMakesDue(t: Table, ids: set<Id>, lease: nat, now: Instant, clock: Instant, id: Id)
    requires id in t && now <= clock
    ensures var after := RequeueDead(t, ids, lease, now, clock);
      && after.Keys == t.Keys
      && (id in Requeued(t, ids, lease, clock) <==>
            id in ids && DeadRow(t[id]) && t[id].nextAttemptAt.Some? && !Claimable(t[id], {t[id].eventType}, clock + lease))
      && (id in Requeued(t, ids, lease, clock) ==>
            Claimable(after[id], {t[id].eventType}, clock) && after[id] == t[id].(nextAttemptAt := Some(now)))
      && (id !in Requeued(t, ids, lease, clock) ==> after[id] == t[id])
  {
  }

  /** Event `i` is the first of a list that carries its id. */
  predicate FirstOfItsId(events: seq<(Id, Event)>, i: int) {
    0 <= i < |events| && forall j :: 0 <= j < i ==> events[j].0 != events[i].0
  }

  /** Enqueueing adds the ids it does not know, each as its first event and never tried, and leaves every known row alone. */
  lemma {:induction false} EnqueueAdds(t: Table, events: seq<(Id, Event)>)
    ensures EnqueueAll(t, events).Keys == t.Keys + set e | e in events :: e.0
    ensures forall id <- t :: EnqueueAll(t, events)[id] == t[id]
    ensures forall i :: FirstOfItsId(events, i) && events[i].0 !in t ==>
              var e := events[i].1;
              EnqueueAll(t, events)[events[i].0] ==
                Row(e.eventType, e.aggregateId, e.occurredAt, None, 0, None, None, None, map[])
    decreases |events|
  {
    if events != [] {
      var u := Enqueue(t, events[0].0, events[0].1);
      EnqueueAdds(u, events[1..]);
      assert events == [events[0]] + events[1..];
      forall i | FirstOfItsId(events, i) && events[i].0 !in t
        ensures var e := events[i].1;
                EnqueueAll(t, events)[events[i].0] ==
                  Row(e.eventType, e.aggregateId, e.occurredAt, None, 0, None, None, None, map[])
      {
        if i > 0 {
          assert FirstOfItsId(events[1..], i - 1) by {
            assert forall j :: 0 <= j < i - 1 ==> events[1..][j] == events[j + 1];
          }
        }
      }
    }
  }

  // ---------- the repository ----------

  class DrizzleOutboxRepository {
    var rows: Table

    constructor ()
      ensures rows == map[]
    {
      rows := map[];
    }

    method EnqueueEvents(events: seq<(Id, Event)>)
      modifies this
      ensures rows == EnqueueAll(old(rows), events)
    {
      var i := 0;
      while i < |events|
        invariant 0 <= i <= |events|
        invariant EnqueueAll(rows, events[i..]) == EnqueueAll(old(rows), events)
      {
        rows := Enqueue(rows, events[i].0, events[i].1);
        i := i + 1;
      }
    }

    /** `pick` is the database's answer: which free rows the three CTEs selected. */
    method Claim(request: ClaimRequest, now: Instant, ghost locked: set<Id>, pick: Pick)
      returns (records: seq<Record>, ghost order: seq<Id>)
      requires IsPick(rows, request, now, locked, pick)
      modifies this
      ensures rows == ClaimRows(old(rows), pick.due, now, request.lease)
      ensures Lists(order, pick.due) && InOrder(OccurredAt(old(rows)), order) && |records| == |order|
      ensures forall i :: 0 <= i < |order| ==> order[i] in old(rows) && records[i] == RecordOf(old(rows), order[i])
    {
      assert forall id <- pick.due :: id in rows;
      var t := rows;
      var sorted := Sort(OccurredAt(rows), pick.due);
      order := sorted;
      records := seq(|sorted|, i requires 0 <= i < |sorted| && sorted[i] in t => RecordOf(t, sorted[i]));
      rows := ClaimRows(rows, pick.due, now, request.lease);
    }

    method DoMarkDelivered(lease: LeaseKey, deliveries: map<Handler, Instant>, now: Instant) returns (written: bool)
      modifies this
      ensures rows == MarkDelivered(old(rows), lease, deliveries, now)
      ensures written == Leased(old(rows), lease)
    {
      written := Leased(rows, lease);
      if written {
        var row := rows[lease.id];
        rows := rows[lease.id := row.(dispatchedAt := Some(now), nextAttemptAt := None, deadAt := None,
                                      deliveries := row.deliveries + deliveries)];
      }
    }

    method DoMarkFailed(lease: LeaseKey, failure: Failure, now: Instant) returns (written: bool)
      modifies this
      ensures rows == MarkFailed(old(rows), lease, failure, now)
      ensures written == Leased(old(rows), lease)
    {
      written := Leased(rows, lease);
      if written {
        var row := rows[lease.id];
        row := row.(lastError := Some(failure.lastError), nextAttemptAt := Some(now + failure.retryAfter),
                    deliveries := row.deliveries + failure.deliveries);
        if failure.dead && row.deadAt.None? {
          row := row.(deadAt := Some(now));
        }
        rows := rows[lease.id := row];
      }
    }

    method DoRelease(lease: LeaseKey, now: Instant) returns (written: bool)
      modifies this
      ensures rows == Release(old(rows), lease, now)
      ensures written == Leased(old(rows), lease)
    {
      written := Leased(rows, lease);
      if written {
        rows := rows[lease.id := rows[lease.id].(attempts := rows[lease.id].attempts - 1, nextAttemptAt := Some(now))];
      }
    }

    method DoRequeueDead(ids: set<Id>, lease: nat, now: Instant, clock: Instant) returns (moved: set<Id>)
      modifies this
      ensures rows == RequeueDead(old(rows), ids, lease, now, clock)
      ensures moved == Requeued(old(rows), ids, lease, clock)
    {
      moved := Requeued(rows, ids, lease, clock);
      rows := map id | id in rows :: if id in moved then rows[id].(nextAttemptAt := Some(now)) else rows[id];
    }
  }

  function EnqueueAll(t: Table, events: seq<(Id, Event)>): Table
    decreases |events|
  {
    if events == [] then t else EnqueueAll(Enqueue(t, events[0].0, events[0].1), events[1..])
  }
}
