/**
 The email table and the row effect of each statement the queue sends to it.

 A batch key is a digest of the sorted ids of the chunk it was made for.  The digest is taken to be
 injective, so a key is the set of those ids.
 */
module EmailQueue {
  import opened Wrappers
  import opened Ordering
  import opened Lease

  datatype Status = Pending | Sent | Failed | Dead

  datatype Kind = Template | Raw

  datatype BatchKey = KeyFor(ids: set<Id>)

  datatype Row = Row(
    kind: Kind,
    template: Option<string>,
    status: Status,
    attempts: int,
    nextAttemptAt: Option<Instant>,
    sentAt: Option<Instant>,
    lastError: Option<string>,
    providerMessageId: Option<string>,
    batchKey: Option<BatchKey>,
    createdAt: Instant)

  type Table = map<Id, Row>

  /** A claimed row as returned, with the size of its batch at the claim. */
  datatype Record = Record(
    id: Id,
    kind: Kind,
    template: Option<string>,
    status: Status,
    attempts: int,
    batchKey: Option<BatchKey>,
    createdAt: Instant,
    unsettledInBatch: Option<nat>)

  datatype LeaseKey = LeaseKey(id: Id, attempts: int)

  datatype ClaimRequest = ClaimRequest(limit: nat, lease: nat, replayWindow: nat)

  datatype Pick = Pick(live: set<Id>, dead: set<Id>, picked: set<Id>, siblings: set<Id>)

  datatype Failure = Final(lastError: string) | Retry(lastError: string, dead: bool, retryAfter: int)

  // ---------- row predicates ----------

  predicate Unsettled(row: Row) {
    row.status.Pending? || row.status.Dead?
  }

  predicate InWindow(row: Row, now: Instant, window: nat) {
    row.createdAt > now - window
  }

  predicate PendingDue(row: Row, now: Instant) {
    row.status.Pending? && IsDue(row.nextAttemptAt, now)
  }

  predicate DeadDue(row: Row, now: Instant, window: nat) {
    row.status.Dead? && IsDeadDue(row.nextAttemptAt, now) && InWindow(row, now, window)
  }

  predicate Due(row: Row, now: Instant, window: nat) {
    PendingDue(row, now) || DeadDue(row, now, window)
  }

  /** Rows that a later claim may still send: pending, or dead inside the replay window. */
  predicate Replayable(row: Row, now: Instant, window: nat) {
    row.status.Pending? || (row.status.Dead? && InWindow(row, now, window))
  }

  predicate Leased(t: Table, lease: LeaseKey) {
    lease.id in t && t[lease.id].attempts == lease.attempts && Unsettled(t[lease.id])
  }

  function ColumnsOf(row: Row): Columns {
    Columns(row.attempts, !Unsettled(row), row.nextAttemptAt)
  }

  function KeyOf(record: Record): LeaseKey {
    LeaseKey(record.id, record.attempts)
  }

  // ---------- the claim ----------

  function CreatedAt(t: Table): map<Id, Instant> {
    map id | id in t :: t[id].createdAt
  }

  predicate CreatedBefore(t: Table, a: Id, b: Id) {
    a in t && b in t && t[a].createdAt < t[b].createdAt
  }

  predicate RetriedSooner(t: Table, a: Id, b: Id) {
    a in t && b in t && t[a].nextAttemptAt.Some? && t[b].nextAttemptAt.Some?
    && t[a].nextAttemptAt.value < t[b].nextAttemptAt.value
  }

  function FreePending(t: Table, now: Instant, locked: set<Id>): set<Id> {
    set id | id in t && id !in locked && PendingDue(t[id], now)
  }

  function FreeDead(t: Table, now: Instant, window: nat, locked: set<Id>): set<Id> {
    set id | id in t && id !in locked && DeadDue(t[id], now, window)
  }

  function KeysAmong(t: Table, ids: set<Id>): set<BatchKey> {
    set id | id in ids && id in t && t[id].batchKey.Some? :: t[id].batchKey.value
  }

  predicate HasKey(t: Table, id: Id, key: BatchKey) {
    id in t && t[id].batchKey == Some(key)
  }

  /** The free due rows that share a batch with a picked one. */
  function Siblings(t: Table, now: Instant, window: nat, locked: set<Id>, picked: set<Id>): set<Id> {
    set id | id in t && id !in locked && Due(t[id], now, window)
          && t[id].batchKey.Some? && t[id].batchKey.value in KeysAmong(t, picked)
  }

  ghost predicate IsPick(t: Table, request: ClaimRequest, now: Instant, locked: set<Id>, pick: Pick) {
    var older := (a: Id, b: Id) => CreatedBefore(t, a, b);
    && FirstBy(pick.live, FreePending(t, now, locked), request.limit, older)
    && FirstBy(pick.dead, FreeDead(t, now, request.replayWindow, locked), DeadShareOf(request.limit),
               (a: Id, b: Id) => RetriedSooner(t, a, b))
    && FirstBy(pick.picked, pick.live + pick.dead, request.limit, older)
    && pick.siblings == Siblings(t, now, request.replayWindow, locked, pick.picked)
  }

  function DueOf(pick: Pick): set<Id> {
    pick.picked + pick.siblings
  }

  function ClaimedRow(row: Row, now: Instant, lease: nat): Row {
    var c := Claimed(ColumnsOf(row), now, lease);
    row.(attempts := c.attempts, nextAttemptAt := c.nextAttemptAt)
  }

  function ClaimRows(t: Table, due: set<Id>, now: Instant, lease: nat): Table {
    map id | id in t :: if id in due then ClaimedRow(t[id], now, lease) else t[id]
  }

  /** The rows of a batch that may still be sent. */
  function ReplayableIn(t: Table, key: BatchKey, now: Instant, window: nat): set<Id> {
    set id | id in t && t[id].batchKey == Some(key) && Replayable(t[id], now, window)
  }

  function RecordOf(t: Table, id: Id, now: Instant, window: nat): Record
    requires id in t
  {
    var r := t[id];
    Record(id, r.kind, r.template, r.status, r.attempts + 1, r.batchKey, r.createdAt,
           if r.batchKey.Some? then Some(|ReplayableIn(t, r.batchKey.value, now, window)|) else None)
  }

  /** `order` and `records` are what a claim that selected `pick` returns. */
  ghost predicate Answers(t: Table, request: ClaimRequest, now: Instant, pick: Pick, order: seq<Id>, records: seq<Record>) {
    && Lists(order, DueOf(pick)) && InOrder(CreatedAt(t), order) && |records| == |order|
    && forall i :: 0 <= i < |order| ==> order[i] in t && records[i] == RecordOf(t, order[i], now, request.replayWindow)
  }

  /** Only unlocked rows are claimed: pending ones that are due, dead ones whose retry time came and that are not too old. */
  lemma PickIsDue(t: Table, request: ClaimRequest, now: Instant, locked: set<Id>, pick: Pick, id: Id)
    requires IsPick(t, request, now, locked, pick) && id in DueOf(pick)
    ensures id in t && id !in locked && Due(t[id], now, request.replayWindow)
    ensures t[id].status.Pending? || (t[id].status.Dead? && t[id].createdAt > now - request.replayWindow)
    ensures t[id].nextAttemptAt.Some? || t[id].status.Pending?
    ensures t[id].nextAttemptAt.Some? ==> t[id].nextAttemptAt.value <= now
  {
  }

  /** A claim takes what it picked and, whatever the limit, every free due row that shares a batch with a picked one. */
  lemma ClaimedExactly(t: Table, request: ClaimRequest, now: Instant, locked: set<Id>, pick: Pick, id: Id)
    requires IsPick(t, request, now, locked, pick)
    ensures id in DueOf(pick) <==>
            id in pick.picked
            || (&& id in t && id !in locked && Due(t[id], now, request.replayWindow) && t[id].batchKey.Some?
                && exists other <- pick.picked :: other in t && t[other].batchKey == t[id].batchKey)
  {
    if id in t && t[id].batchKey.Some? {
      if other :| other in pick.picked && other in t && t[other].batchKey == t[id].batchKey {
        assert t[id].batchKey.value in KeysAmong(t, pick.picked);
      }
    }
  }

  /**
   A claim raises the token and the due time of the rows it takes and nothing else.  Its records show the rows
   as they then are, with the number of messages of their batch that are pending, or dead and not too old.
   */
  lemma ClaimRaisesTokens(t: Table, due: set<Id>, now: Instant, request: ClaimRequest, id: Id)
    requires id in t
    ensures var after := ClaimRows(t, due, now, request.lease);
      && after.Keys == t.Keys
      && (id !in due ==> after[id] == t[id])
      && (id in due ==> after[id] == t[id].(attempts := t[id].attempts + 1, nextAttemptAt := Some(now + request.lease)))
      && var row, r := after[id], RecordOf(t, id, now, request.replayWindow);
         && (id in due ==>
               r == Record(id, row.kind, row.template, row.status, row.attempts, row.batchKey, row.createdAt, r.unsettledInBatch))
         && (r.unsettledInBatch.Some? <==> row.batchKey.Some?)
         && (row.batchKey.Some? ==>
               r.unsettledInBatch.value == |set other | other in t && t[other].batchKey == row.batchKey
                 && (t[other].status.Pending? || (t[other].status.Dead? && t[other].createdAt > now - request.replayWindow))|)
  {
    if t[id].batchKey.Some? {
      var key := t[id].batchKey.value;
      assert ReplayableIn(t, key, now, request.replayWindow) ==
        set other | other in t && t[other].batchKey == Some(key)
          && (t[other].status.Pending? || (t[other].status.Dead? && t[other].createdAt > now - request.replayWindow));
    }
  }

  /** Whatever is locked, the database always has an answer to a claim. */
  lemma PickExists(t: Table, request: ClaimRequest, now: Instant, locked: set<Id>) returns (pick: Pick)
    ensures IsPick(t, request, now, locked, pick)
  {
    var older := (a: Id, b: Id) => CreatedBefore(t, a, b);
    var sooner := (a: Id, b: Id) => RetriedSooner(t, a, b);
    var live := FirstByExists(FreePending(t, now, locked), request.limit, older);
    var dead := FirstByExists(FreeDead(t, now, request.replayWindow, locked), DeadShareOf(request.limit), sooner);
    var picked := FirstByExists(live + dead, request.limit, older);
    pick := Pick(live, dead, picked, Siblings(t, now, request.replayWindow, locked, picked));
  }

  /** The free rows of a claim, written out. */
  lemma FreeRows(t: Table, request: ClaimRequest, now: Instant, locked: set<Id>, id: Id)
    ensures id in FreePending(t, now, locked) <==>
              && id in t && id !in locked && t[id].status.Pending?
              && (t[id].nextAttemptAt.Some? ==> t[id].nextAttemptAt.value <= now)
    ensures id in FreeDead(t, now, request.replayWindow, locked) <==>
              && id in t && id !in locked && t[id].status.Dead? && t[id].createdAt > now - request.replayWindow
              && t[id].nextAttemptAt.Some? && t[id].nextAttemptAt.value <= now
  {
  }

  /** No picked row was created after, and no dead one due after, a row of the same kind that is left out. */
  lemma PickedInOrder(t: Table, request: ClaimRequest, now: Instant, locked: set<Id>, pick: Pick, a: Id, b: Id)
    requires IsPick(t, request, now, locked, pick) && a in t && b in t
    ensures b in pick.picked && t[a].createdAt < t[b].createdAt ==>
              && (a in pick.live + pick.dead ==> a in pick.picked)
              && (a in FreePending(t, now, locked) && b in FreePending(t, now, locked) ==> a in pick.picked)
    ensures b in pick.dead && a in FreeDead(t, now, request.replayWindow, locked) ==>
              t[a].nextAttemptAt.value < t[b].nextAttemptAt.value ==> a in pick.dead
  {
    var older := (a: Id, b: Id) => CreatedBefore(t, a, b);
    var sooner := (a: Id, b: Id) => RetriedSooner(t, a, b);
    assert older(a, b) == CreatedBefore(t, a, b) && sooner(a, b) == RetriedSooner(t, a, b);
  }

  lemma PickShares(t: Table, request: ClaimRequest, now: Instant, locked: set<Id>, pick: Pick)
    requires IsPick(t, request, now, locked, pick)
    ensures var pending, dead, limit := FreePending(t, now, locked), FreeDead(t, now, request.replayWindow, locked), request.limit;
      && |pick.picked| <= limit
      && |pick.picked * dead| <= DeadShareOf(limit)
      && |pick.picked * pending| >= (if |pending| < limit - DeadShareOf(limit) then |pending| else limit - DeadShareOf(limit))
  {
    var older := (a: Id, b: Id) => CreatedBefore(t, a, b);
    LiveShare(pick.live, pick.dead, pick.picked, request.limit, DeadShareOf(request.limit), older);
    assert pick.picked * FreeDead(t, now, request.replayWindow, locked) == pick.picked * pick.dead;
    assert pick.picked * FreePending(t, now, locked) == pick.picked * pick.live;
  }

  /**
   Dead replays leave pending rows three quarters of the limit.  No pending row overtakes one created before
   it, no dead row one that was due sooner, and what the limit cuts off is the newest.
   */
  lemma ClaimNeverStarvesPending(t: Table, request: ClaimRequest, now: Instant, locked: set<Id>, pick: Pick)
    requires IsPick(t, request, now, locked, pick)
    ensures var pending, dead, limit := FreePending(t, now, locked), FreeDead(t, now, request.replayWindow, locked), request.limit;
      && (forall id :: id in pending <==>
            && id in t && id !in locked && t[id].status.Pending?
            && (t[id].nextAttemptAt.Some? ==> t[id].nextAttemptAt.value <= now))
      && (forall id :: id in dead <==>
            && id in t && id !in locked && t[id].status.Dead? && t[id].createdAt > now - request.replayWindow
            && t[id].nextAttemptAt.Some? && t[id].nextAttemptAt.value <= now)
      && |pick.picked| <= limit
      && |pick.picked * dead| <= DeadShareOf(limit)
      && |pick.picked * pending| >= (if |pending| < limit - DeadShareOf(limit) then |pending| else limit - DeadShareOf(limit))
      && (forall a, b | a in pending && b in pending && b in pick.picked :: t[a].createdAt < t[b].createdAt ==> a in pick.picked)
      && (forall a, b | a in pick.live + pick.dead && b in pick.picked :: t[a].createdAt < t[b].createdAt ==> a in pick.picked)
      && (forall a, b | a in dead && b in pick.dead ::
            t[a].nextAttemptAt.value < t[b].nextAttemptAt.value ==> a in pick.dead)
  {
    PickShares(t, request, now, locked, pick);
    forall id
      ensures id in FreePending(t, now, locked) <==>
                && id in t && id !in locked && t[id].status.Pending?
                && (t[id].nextAttemptAt.Some? ==> t[id].nextAttemptAt.value <= now)
      ensures id in FreeDead(t, now, request.replayWindow, locked) <==>
                && id in t && id !in locked && t[id].status.Dead? && t[id].createdAt > now - request.replayWindow
                && t[id].nextAttemptAt.Some? && t[id].nextAttemptAt.value <= now
    {
      FreeRows(t, request, now, locked, id);
    }
    forall a, b | a in t && b in t
      ensures b in pick.picked && t[a].createdAt < t[b].createdAt ==>
                && (a in pick.live + pick.dead ==> a in pick.picked)
                && (a in FreePending(t, now, locked) && b in FreePending(t, now, locked) ==> a in pick.picked)
      ensures b in pick.dead && a in FreeDead(t, now, request.replayWindow, locked) ==>
                t[a].nextAttemptAt.value < t[b].nextAttemptAt.value ==> a in pick.dead
    {
      PickedInOrder(t, request, now, locked, pick, a, b);
    }
  }

  // ---------- whole batches ----------

  /** The claimed rows of one batch. */
  function ClaimedOf(t: Table, pick: Pick, key: BatchKey): set<Id> {
    set id | id in DueOf(pick) && HasKey(t, id, key)
  }

  /**
   A batch looks whole to the claim, by count alone, exactly when every row of it that may still be
   sent was claimed, whatever rows the claim had to skip.
   */
  lemma WholeMeansAllReplayable(t: Table, request: ClaimRequest, now: Instant, locked: set<Id>, pick: Pick, key: BatchKey)
    requires IsPick(t, request, now, locked, pick)
    ensures var all := ReplayableIn(t, key, now, request.replayWindow);
      && ClaimedOf(t, pick, key) <= all
      && (|ClaimedOf(t, pick, key)| >= |all| <==> ClaimedOf(t, pick, key) == all)
  {
    var claimed, all := ClaimedOf(t, pick, key), ReplayableIn(t, key, now, request.replayWindow);
    forall id | id in claimed
      ensures id in all
    {
      PickIsDue(t, request, now, locked, pick, id);
    }
    SubsetSize(claimed, all);
    if |claimed| >= |all| { SameSizeSubset(claimed, all); }
  }

  /** A claim that touches a batch takes it whole exactly when none of its sendable rows is locked or not yet due. */
  lemma BatchComesWhole(t: Table, request: ClaimRequest, now: Instant, locked: set<Id>, pick: Pick, key: BatchKey)
    requires IsPick(t, request, now, locked, pick) && ClaimedOf(t, pick, key) != {}
    ensures var all := ReplayableIn(t, key, now, request.replayWindow);
      ClaimedOf(t, pick, key) == all <==> forall id <- all :: id !in locked && Due(t[id], now, request.replayWindow)
  {
    var all := ReplayableIn(t, key, now, request.replayWindow);
    WholeMeansAllReplayable(t, request, now, locked, pick, key);
    if ClaimedOf(t, pick, key) == all {
      forall id | id in all
        ensures id !in locked && Due(t[id], now, request.replayWindow)
      {
        PickIsDue(t, request, now, locked, pick, id);
      }
    }
    var some :| some in ClaimedOf(t, pick, key);
    assert key in KeysAmong(t, pick.picked);
    if forall id <- all :: id !in locked && Due(t[id], now, request.replayWindow) {
      assert forall id <- all :: id in pick.siblings;
    }
  }

  // ---------- the settling statements ----------

  /** The rows a statement over `leases` writes. */
  function WrittenRows(t: Table, leases: set<LeaseKey>): set<Id> {
    set id | id in t && LeaseKey(id, t[id].attempts) in leases && Unsettled(t[id])
  }

  /** The statement every settling operation shares: `change` applied to the leased rows. */
  function UpdateLeased(t: Table, leases: set<LeaseKey>, change: (Id, Row) -> Row): Table {
    map id | id in t :: if id in WrittenRows(t, leases) then change(id, t[id]) else t[id]
  }

  function SentRow(row: Row, providerId: Option<string>, now: Instant): Row {
    row.(status := Sent, sentAt := Some(now), nextAttemptAt := None, lastError := None, providerMessageId := providerId)
  }

  function MarkSent(t: Table, leases: set<LeaseKey>, providerIds: map<Id, string>, now: Instant): Table {
    UpdateLeased(t, leases, (id: Id, row: Row) =>
      SentRow(row, if id in providerIds then Some(providerIds[id]) else None, now))
  }

  function FailedRow(row: Row, failure: Failure, now: Instant): Row {
    match failure
    case Final(error) => row.(status := Failed, lastError := Some(error), nextAttemptAt := None)
    case Retry(error, dead, retryAfter) =>
      row.(status := if dead then Dead else Pending, lastError := Some(error), nextAttemptAt := Some(now + retryAfter))
  }

  function MarkFailed(t: Table, leases: set<LeaseKey>, failure: Failure, now: Instant): Table {
    UpdateLeased(t, leases, (id: Id, row: Row) => FailedRow(row, failure, now))
  }

  function AssignBatch(t: Table, leases: set<LeaseKey>, key: BatchKey): Table {
    UpdateLeased(t, leases, (id: Id, row: Row) => row.(batchKey := Some(key)))
  }

  function ReleasedRow(row: Row, due: Instant): Row {
    var c := Released(ColumnsOf(row), due);
    row.(attempts := c.attempts, nextAttemptAt := c.nextAttemptAt)
  }

  function Release(t: Table, leases: set<LeaseKey>, due: Instant): Table {
    UpdateLeased(t, leases, (id: Id, row: Row) => ReleasedRow(row, due))
  }

  /** A statement over several leases is the same statement over each of them, one after the other. */
  lemma StatementSplits(t: Table, first: LeaseKey, rest: set<LeaseKey>, change: (Id, Row) -> Row)
    requires forall lease <- rest :: lease.id != first.id
    ensures UpdateLeased(UpdateLeased(t, {first}, change), rest, change) == UpdateLeased(t, {first} + rest, change)
  {
  }

  /** A release takes back what the claim did: only the time the row is due differs. */
  lemma ReleaseUndoesClaim(t: Table, due: set<Id>, id: Id, now: Instant, request: ClaimRequest, later: Instant)
    requires id in due && id in t && Unsettled(t[id])
    ensures var claimed := ClaimRows(t, due, now, request.lease);
            var after := Release(claimed, {KeyOf(RecordOf(t, id, now, request.replayWindow))}, later);
      && after[id] == t[id].(nextAttemptAt := Some(later))
      && forall other <- t :: other != id ==> after[other] == claimed[other]
  {
  }

  /** A statement touches only the rows it writes. */
  ghost predicate OnlyRows(t: Table, after: Table, written: set<Id>) {
    after.Keys == t.Keys && forall id <- t :: id !in written ==> after[id] == t[id]
  }

  /** A message marked sent is closed: no lease matches it again, so no later statement writes it. */
  lemma SentCloses(t: Table, leases: set<LeaseKey>, providerIds: map<Id, string>, now: Instant, id: Id)
    requires id in WrittenRows(t, leases)
    ensures var after := MarkSent(t, leases, providerIds, now);
      && OnlyRows(t, after, WrittenRows(t, leases))
      && after[id] == t[id].(status := Sent, sentAt := Some(now), nextAttemptAt := None, lastError := None,
                             providerMessageId := if id in providerIds then Some(providerIds[id]) else None)
      && forall others :: id !in WrittenRows(after, others)
  {
  }

  /** A final failure closes its messages; any other keeps their lease and makes them wait out the retry. */
  lemma FailureClosesOrWaits(t: Table, leases: set<LeaseKey>, failure: Failure, now: Instant, id: Id, later: Instant, window: nat)
    requires id in WrittenRows(t, leases)
    ensures var after := MarkFailed(t, leases, failure, now);
      && OnlyRows(t, after, WrittenRows(t, leases))
      && after[id].lastError == Some(failure.lastError)
      && (failure.Final? ==>
            && after[id] == t[id].(status := Failed, lastError := after[id].lastError, nextAttemptAt := None)
            && forall others :: id !in WrittenRows(after, others))
      && (failure.Retry? ==>
            && id in WrittenRows(after, leases) && (after[id].status.Dead? <==> failure.dead)
            && after[id].nextAttemptAt == Some(now + failure.retryAfter)
            && after[id] == t[id].(status := after[id].status, lastError := after[id].lastError, nextAttemptAt := after[id].nextAttemptAt)
            && (Due(after[id], later, window) <==>
                now + failure.retryAfter <= later && (failure.dead ==> t[id].createdAt > later - window)))
  {
  }

  /** Writing a batch key changes nothing else, and leaves every lease matching what it matched. */
  lemma AssignKeepsLeases(t: Table, leases: set<LeaseKey>, key: BatchKey)
    ensures var after := AssignBatch(t, leases, key);
      && after.Keys == t.Keys && (forall others :: WrittenRows(after, others) == WrittenRows(t, others))
      && forall id <- t ::
           && after[id].(batchKey := t[id].batchKey) == t[id]
           && after[id].batchKey == if id in WrittenRows(t, leases) then Some(key) else t[id].batchKey
  {
    var after := AssignBatch(t, leases, key);
    forall others
      ensures WrittenRows(after, others) == WrittenRows(t, others)
    {
    }
  }

  function Inserted(kind: Kind, template: Option<string>, now: Instant): Row {
    Row(kind, template, Pending, 0, None, None, None, None, None, now)
  }

  /** A statement over several leases writes each leased row, and nothing else. */
  lemma WrittenExactlyLeased(t: Table, leases: set<LeaseKey>, id: Id)
    ensures id in WrittenRows(t, leases) <==> exists lease <- leases :: lease.id == id && Leased(t, lease)
  {
    if id in WrittenRows(t, leases) {
      assert Leased(t, LeaseKey(id, t[id].attempts));
    }
  }

  class DrizzleEmailQueue {
    var rows: Table

    constructor ()
      ensures rows == map[]
    {
      rows := map[];
    }

    /** `pick` is the database's answer: which free rows the CTEs selected. */
    method Claim(request: ClaimRequest, now: Instant, ghost locked: set<Id>, pick: Pick)
      returns (records: seq<Record>, ghost order: seq<Id>)
      requires IsPick(rows, request, now, locked, pick)
      modifies this
      ensures rows == ClaimRows(old(rows), DueOf(pick), now, request.lease)
      ensures Answers(old(rows), request, now, pick, order, records)
    {
      assert forall id <- DueOf(pick) :: id in rows;
      var t := rows;
      var sorted := Sort(CreatedAt(rows), DueOf(pick));
      order := sorted;
      records := seq(|sorted|, i requires 0 <= i < |sorted| && sorted[i] in t =>
                       RecordOf(t, sorted[i], now, request.replayWindow));
      rows := ClaimRows(rows, DueOf(pick), now, request.lease);
    }

    method DoMarkSent(leases: set<LeaseKey>, providerIds: map<Id, string>, now: Instant) returns (written: set<Id>)
      modifies this
      ensures rows == MarkSent(old(rows), leases, providerIds, now) && written == WrittenRows(old(rows), leases)
    {
      written := WrittenRows(rows, leases);
      rows := MarkSent(rows, leases, providerIds, now);
    }

    method DoMarkFailed(leases: set<LeaseKey>, failure: Failure, now: Instant) returns (written: set<Id>)
      modifies this
      ensures rows == MarkFailed(old(rows), leases, failure, now) && written == WrittenRows(old(rows), leases)
    {
      written := WrittenRows(rows, leases);
      rows := MarkFailed(rows, leases, failure, now);
    }

    method DoAssignBatch(leases: set<LeaseKey>, key: BatchKey) returns (written: set<Id>)
      modifies this
      ensures rows == AssignBatch(old(rows), leases, key) && written == WrittenRows(old(rows), leases)
    {
      written := WrittenRows(rows, leases);
      rows := AssignBatch(rows, leases, key);
    }

    method DoRelease(leases: set<LeaseKey>, due: Instant) returns (written: set<Id>)
      modifies this
      ensures rows == Release(old(rows), leases, due) && written == WrittenRows(old(rows), leases)
    {
      written := WrittenRows(rows, leases);
      rows := Release(rows, leases, due);
    }
  }
}
