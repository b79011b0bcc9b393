/**
 The outbox as a whole: producers, any number of relays and an operator over one table.

 Every step is one atomic statement or transaction.  A relay that claimed a record may settle it at
 any later time, long after its lease ran out, or never.  The promises are about every reachable state.
 */
module OutboxSystem {
  import opened Wrappers
  import opened Ordering
  import Lease
  import opened Jitter
  import opened OutboxRepository
  import opened OutboxRelay

  /** A claimed record in the hands of a relay. */
  datatype Grant = Grant(record: Record, expiresAt: Instant, standing: Lease.Standing)

  datatype State = State(rows: Table, grants: seq<Grant>, clock: Instant)

  datatype Config = Config(request: ClaimRequest, requeueLease: nat, policy: Policy)

  datatype Step =
    | Tick(to: Instant)
    | Produce(id: Id, event: Event)
    | Claim(locked: set<Id>, pick: Pick, order: seq<Id>)
    | Settle(k: nat, turn: Turn, now: Instant, announcement: Id)
    | Lose(k: nat)
    | Requeue(ids: set<Id>, now: Instant)

  predicate Holds(s: State, k: int) {
    0 <= k < |s.grants| && s.grants[k].standing.Held?
  }

  /** Announcement ids are fresh, and no producer emits the announcement type itself. */
  ghost predicate Enabled(cfg: Config, s: State, step: Step) {
    match step
    case Tick(to) => s.clock <= to
    case Produce(_, event) => event.eventType != OUTBOX_EVENT_DEAD
    case Claim(locked, pick, order) =>
      && IsPick(s.rows, cfg.request, s.clock, locked, pick)
      && Lists(order, pick.due)
    case Settle(k, turn, now, announcement) =>
      Holds(s, k) && ValidTurn(s.grants[k].record, turn) && now <= s.clock && announcement !in s.rows
    case Lose(k) => Holds(s, k)
    case Requeue(_, now) => now <= s.clock
  }

  ghost function NewGrants(s: State, order: seq<Id>, lease: nat): (r: seq<Grant>)
    requires forall id <- order :: id in s.rows
    ensures |r| == |order|
  {
    seq(|order|, i requires 0 <= i < |order| => Grant(RecordOf(s.rows, order[i]), s.clock + lease, Lease.Held))
  }

  ghost function AfterClaim(cfg: Config, s: State, pick: Pick, order: seq<Id>): State
    requires forall id <- order :: id in s.rows
  {
    s.(rows := ClaimRows(s.rows, pick.due, s.clock, cfg.request.lease),
       grants := s.grants + NewGrants(s, order, cfg.request.lease))
  }

  ghost function AfterSettle(cfg: Config, s: State, k: nat, turn: Turn, now: Instant, announcement: Id): State
    requires Holds(s, k) && ValidTurn(s.grants[k].record, turn)
  {
    var g := s.grants[k];
    var decision := Decide(g.record, turn, cfg.policy);
    var standing := if Leased(s.rows, KeyOf(g.record)) && decision.GiveUp? then Lease.GivenBack else Lease.Spent;
    s.(rows := Commit(s.rows, g.record, decision, now, announcement, turn.at),
       grants := s.grants[k := g.(standing := standing)])
  }

  ghost function Apply(cfg: Config, s: State, step: Step): State
    requires Enabled(cfg, s, step)
  {
    match step
    case Tick(to) => s.(clock := to)
    case Produce(id, event) => s.(rows := Enqueue(s.rows, id, event))
    case Claim(_, pick, order) => AfterClaim(cfg, s, pick, order)
    case Settle(k, turn, now, announcement) => AfterSettle(cfg, s, k, turn, now, announcement)
    case Lose(k) => s.(grants := s.grants[k := s.grants[k].(standing := Lease.Spent)])
    case Requeue(ids, now) => s.(rows := RequeueDead(s.rows, ids, cfg.requeueLease, now, s.clock))
  }

  const START := State(map[], [], 0)

  ghost predicate ValidRun(cfg: Config, s: State, steps: seq<Step>)
    decreases |steps|
  {
    steps == [] || (Enabled(cfg, s, steps[0]) && ValidRun(cfg, Apply(cfg, s, steps[0]), steps[1..]))
  }

  ghost function Run(cfg: Config, s: State, steps: seq<Step>): State
    requires ValidRun(cfg, s, steps)
    decreases |steps|
  {
    if steps == [] then s else Run(cfg, Apply(cfg, s, steps[0]), steps[1..])
  }

  // ---------- the lease machine inside ----------

  function ClaimOf(g: Grant): Lease.Claim {
    Lease.Claim(g.record.id, g.record.attempts, g.expiresAt, g.standing)
  }

  function Project(s: State): Lease.State {
    Lease.State(map id | id in s.rows :: ColumnsOf(s.rows[id]),
                seq(|s.grants|, i requires 0 <= i < |s.grants| => ClaimOf(s.grants[i])),
                s.clock)
  }

  function LeaseConfig(cfg: Config): Lease.Config {
    Lease.Config(cfg.request.lease, cfg.requeueLease)
  }

  ghost function LeaseSteps(cfg: Config, s: State, step: Step): seq<Lease.Step>
    requires Enabled(cfg, s, step)
  {
    match step
    case Tick(to) => [Lease.Tick(to)]
    case Produce(id, event) => if id in s.rows then [] else [Lease.Insert(id)]
    case Claim(_, _, order) => [Lease.Take(order)]
    case Settle(k, turn, now, announcement) =>
      (match Decide(s.grants[k].record, turn, cfg.policy)
       case Dispatch(_) => [Lease.Use(k, Lease.Keep(true, None))]
       case Fail(failure, announces) =>
         var use := Lease.Use(k, Lease.Keep(false, Some(now + failure.retryAfter)));
         if announces && Leased(s.rows, KeyOf(s.grants[k].record)) then [use, Lease.Insert(announcement)] else [use]
       case GiveUp => [Lease.Use(k, Lease.GiveBack(now))]
       case Refused => [Lease.Abandon(k)])
    case Lose(k) => [Lease.Abandon(k)]
    case Requeue(ids, now) => [Lease.Requeue(Requeued(s.rows, ids, cfg.requeueLease, s.clock), now)]
  }

  ghost predicate StepsTo(cfg: Lease.Config, s: Lease.State, steps: seq<Lease.Step>, t: Lease.State) {
    Lease.ValidRun(cfg, s, steps) && Lease.Run(cfg, s, steps) == t
  }

  lemma OneStep(cfg: Lease.Config, s: Lease.State, step: Lease.Step, t: Lease.State)
    requires Lease.Enabled(cfg, s, step) && Lease.Apply(cfg, s, step) == t
    ensures StepsTo(cfg, s, [step], t)
  {
    assert Lease.ValidRun(cfg, t, []);
    assert [step][1..] == [];
  }

  lemma TwoSteps(cfg: Lease.Config, s: Lease.State, a: Lease.Step, b: Lease.Step, m: Lease.State, t: Lease.State)
    requires Lease.Enabled(cfg, s, a) && Lease.Apply(cfg, s, a) == m
    requires Lease.Enabled(cfg, m, b) && Lease.Apply(cfg, m, b) == t
    ensures StepsTo(cfg, s, [a, b], t)
  {
    OneStep(cfg, m, b, t);
    assert [a, b][1..] == [b];
  }

  lemma SettleProjects(cfg: Config, s: State, step: Step)
    requires Enabled(cfg, s, step) && step.Settle?
    ensures var uses := LeaseSteps(cfg, s, step);
      && Lease.Enabled(LeaseConfig(cfg), Project(s), uses[0])
      && var m, t := Lease.Apply(LeaseConfig(cfg), Project(s), uses[0]), Project(Apply(cfg, s, step));
         m.claims == t.claims && m.clock == t.clock && (|uses| == 1 ==> m.rows == t.rows)
  {
    var p, t := Project(s), Apply(cfg, s, step);
    assert Leased(s.rows, KeyOf(s.grants[step.k].record)) == Lease.Fence(p.rows, p.claims[step.k]);
    var m := Lease.Apply(LeaseConfig(cfg), p, LeaseSteps(cfg, s, step)[0]);
    assert m.claims == Project(t).claims;
  }

  lemma SettleRefines(cfg: Config, s: State, step: Step)
    requires Enabled(cfg, s, step) && step.Settle?
    ensures StepsTo(LeaseConfig(cfg), Project(s), LeaseSteps(cfg, s, step), Project(Apply(cfg, s, step)))
  {
    var p, t := Project(s), Project(Apply(cfg, s, step));
    var uses := LeaseSteps(cfg, s, step);
    SettleProjects(cfg, s, step);
    var m := Lease.Apply(LeaseConfig(cfg), p, uses[0]);
    if |uses| == 1 {
      OneStep(LeaseConfig(cfg), p, uses[0], t);
    } else {
      assert Leased(s.rows, KeyOf(s.grants[step.k].record)) == Lease.Fence(p.rows, p.claims[step.k]);
      var u := Lease.Apply(LeaseConfig(cfg), m, uses[1]);
      assert u.rows == t.rows;
      TwoSteps(LeaseConfig(cfg), p, uses[0], uses[1], m, t);
    }
  }

  lemma TakeProjects(cfg: Config, s: State, order: seq<Id>, due: set<Id>, t: State)
    requires Lists(order, due)
    requires forall id <- order :: id in s.rows && Claimable(s.rows[id], cfg.request.eventTypes, s.clock)
    requires t == s.(rows := ClaimRows(s.rows, due, s.clock, cfg.request.lease),
                     grants := s.grants + NewGrants(s, order, cfg.request.lease))
    ensures StepsTo(LeaseConfig(cfg), Project(s), [Lease.Take(order)], Project(t))
  {
    var m := Lease.Apply(LeaseConfig(cfg), Project(s), Lease.Take(order));
    assert m.rows == Project(t).rows;
    assert m.claims == Project(t).claims;
    OneStep(LeaseConfig(cfg), Project(s), Lease.Take(order), Project(t));
  }

  lemma OrderIsClaimable(cfg: Config, s: State, step: Step, id: Id)
    requires Enabled(cfg, s, step) && step.Claim? && id in step.order
    ensures id in s.rows && id !in step.locked && Claimable(s.rows[id], cfg.request.eventTypes, s.clock)
  {
    PickIsClaimable(s.rows, cfg.request, s.clock, step.locked, step.pick, id);
  }

  lemma ClaimRefines(cfg: Config, s: State, step: Step)
    requires Enabled(cfg, s, step) && step.Claim?
    ensures StepsTo(LeaseConfig(cfg), Project(s), LeaseSteps(cfg, s, step), Project(Apply(cfg, s, step)))
  {
    forall id | id in step.order
      ensures id in s.rows && Claimable(s.rows[id], cfg.request.eventTypes, s.clock)
    {
      OrderIsClaimable(cfg, s, step, id);
    }
    TakeProjects(cfg, s, step.order, step.pick.due, Apply(cfg, s, step));
  }

  lemma OtherRefines(cfg: Config, s: State, step: Step)
    requires Enabled(cfg, s, step) && !step.Settle? && !step.Claim?
    ensures StepsTo(LeaseConfig(cfg), Project(s), LeaseSteps(cfg, s, step), Project(Apply(cfg, s, step)))
  {
    var p, t := Project(s), Apply(cfg, s, step);
    var uses := LeaseSteps(cfg, s, step);
    if uses == [] {
      assert Project(t) == p;
    } else {
      var m := Lease.Apply(LeaseConfig(cfg), p, uses[0]);
      assert m.rows == Project(t).rows;
      assert m.claims == Project(t).claims;
      OneStep(LeaseConfig(cfg), p, uses[0], Project(t));
    }
  }

  /** Every outbox step is a run of the lease machine. */
  lemma StepRefines(cfg: Config, s: State, step: Step)
    requires Enabled(cfg, s, step)
    ensures StepsTo(LeaseConfig(cfg), Project(s), LeaseSteps(cfg, s, step), Project(Apply(cfg, s, step)))
  {
    if step.Settle? {
      SettleRefines(cfg, s, step);
    } else if step.Claim? {
      ClaimRefines(cfg, s, step);
    } else {
      OtherRefines(cfg, s, step);
    }
  }

  /** A write of grant `k` lands exactly when its row is undelivered and every later claim was given back. */
  ghost predicate AllLaterGivenBack(s: State, k: int)
    requires 0 <= k < |s.grants|
  {
    forall j :: k < j < |s.grants| && s.grants[j].record.id == s.grants[k].record.id ==> s.grants[j].standing.GivenBack?
  }

  ghost predicate LeaseInv(cfg: Config, s: State) {
    && Lease.Stacked(Project(s))
    && (cfg.request.lease <= cfg.requeueLease ==> Lease.Exclusive(LeaseConfig(cfg), Project(s)))
  }

  lemma StepLeaseInv(cfg: Config, s: State, step: Step)
    requires LeaseInv(cfg, s) && Enabled(cfg, s, step)
    ensures LeaseInv(cfg, Apply(cfg, s, step))
  {
    StepRefines(cfg, s, step);
    Lease.RunStacked(LeaseConfig(cfg), Project(s), LeaseSteps(cfg, s, step));
    if cfg.request.lease <= cfg.requeueLease {
      Lease.RunExclusive(LeaseConfig(cfg), Project(s), LeaseSteps(cfg, s, step));
    }
  }

  lemma FenceMeaning(cfg: Config, s: State, k: int)
    requires LeaseInv(cfg, s) && Holds(s, k)
    ensures s.grants[k].record.id in s.rows
    ensures Leased(s.rows, KeyOf(s.grants[k].record)) <==>
            s.rows[s.grants[k].record.id].dispatchedAt.None? && AllLaterGivenBack(s, k)
  {
    var p := Project(s);
    assert p.claims[k].id in p.rows;
    Lease.FenceMeaning(p, k);
    assert AllLaterGivenBack(s, k) == Lease.AllLaterGivenBack(p.claims, k) by {
      assert forall j :: 0 <= j < |s.grants| ==> p.claims[j] == ClaimOf(s.grants[j]);
    }
  }

  // ---------- what a grant still knows about its row ----------

  ghost predicate NoneLaterSpent(s: State, k: int)
    requires 0 <= k < |s.grants|
  {
    forall j :: k < j < |s.grants| && s.grants[j].record.id == s.grants[k].record.id ==> !s.grants[j].standing.Spent?
  }

  /** The snapshot a relay acts on: deliveries only grew, and `deadAt` is current while no later claim was spent. */
  ghost predicate RecordAgrees(s: State, k: int)
    requires 0 <= k < |s.grants|
  {
    var r := s.grants[k].record;
    && r.id in s.rows
    && s.rows[r.id].eventType == r.eventType
    && r.deliveries.Keys <= s.rows[r.id].deliveries.Keys
    && (Holds(s, k) && NoneLaterSpent(s, k) ==> s.rows[r.id].deadAt == r.deadAt)
  }

  ghost predicate RecordsAgree(s: State) {
    forall k :: 0 <= k < |s.grants| ==> RecordAgrees(s, k)
  }

  // ---------- rows ----------

  function Longest(a: nat, b: nat): nat { if a < b then b else a }

  /** No undelivered row waits longer than this. */
  function Horizon(cfg: Config): nat {
    Longest(cfg.request.lease, Longest(cfg.policy.deadRetry, MAX_RETRY_SECONDS * SECOND))
  }

  predicate WillBeDue(cfg: Config, clock: Instant, row: Row) {
    row.dispatchedAt.None? ==>
      && (row.deadAt.Some? ==> row.nextAttemptAt.Some?)
      && (row.nextAttemptAt.Some? ==> row.nextAttemptAt.value <= clock + Horizon(cfg))
  }

  ghost predicate RowsWillBeDue(cfg: Config, s: State) {
    forall id :: id in s.rows ==> WillBeDue(cfg, s.clock, s.rows[id])
  }

  // ---------- announcements ----------

  predicate Announces(rows: Table, a: Id, id: Id) {
    a in rows && rows[a].eventType == OUTBOX_EVENT_DEAD && rows[a].aggregateId == id
  }

  predicate Ordinary(rows: Table, id: Id) {
    id in rows && rows[id].eventType != OUTBOX_EVENT_DEAD
  }

  /** Every announcement is about one ordinary row that died, no row has two, and no live row has any. */
  ghost predicate DeathsAnnounced(rows: Table) {
    && (forall a, id :: Announces(rows, a, id) ==>
          Ordinary(rows, id) && (rows[id].deadAt.Some? || rows[id].dispatchedAt.Some?))
    && (forall a, b, id :: Announces(rows, a, id) && Announces(rows, b, id) ==> a == b)
    && (forall id :: Ordinary(rows, id) && DeadRow(rows[id]) ==> exists a :: Announces(rows, a, id))
  }

  ghost predicate Inv(cfg: Config, s: State) {
    LeaseInv(cfg, s) && RecordsAgree(s) && RowsWillBeDue(cfg, s) && DeathsAnnounced(s.rows)
  }

  // ---------- every step keeps the invariant ----------

  /** What a landed write knows: its record is current. */
  lemma LandedWrite(cfg: Config, s: State, k: int)
    requires LeaseInv(cfg, s) && RecordsAgree(s) && Holds(s, k) && Leased(s.rows, KeyOf(s.grants[k].record))
    ensures s.rows[s.grants[k].record.id].deadAt == s.grants[k].record.deadAt
    ensures AllLaterGivenBack(s, k)
  {
    FenceMeaning(cfg, s, k);
    assert RecordAgrees(s, k);
  }

  lemma NoneLaterSpentBefore(s: State, t: State, j: int)
    requires 0 <= j < |s.grants| <= |t.grants| && NoneLaterSpent(t, j)
    requires forall i :: 0 <= i < |s.grants| ==> t.grants[i].record == s.grants[i].record
    requires forall i :: 0 <= i < |s.grants| && s.grants[i].standing.Spent? ==> t.grants[i].standing.Spent?
    ensures NoneLaterSpent(s, j)
  {
    forall i | j < i < |s.grants| && s.grants[i].record.id == s.grants[j].record.id
      ensures !s.grants[i].standing.Spent?
    {
      assert t.grants[i].record.id == s.grants[i].record.id;
    }
  }

  lemma CommitKeeps(rows: Table, record: Record, d: Decision, now: Instant, announcement: Id, at: Instant, id: Id)
    requires id in rows && announcement !in rows
    ensures var after := Commit(rows, record, d, now, announcement, at);
      && id in after && after[id].eventType == rows[id].eventType && rows[id].deliveries.Keys <= after[id].deliveries.Keys
      && (id != record.id || !Leased(rows, KeyOf(record)) ==> after[id].deadAt == rows[id].deadAt)
  {
  }

  lemma SettleAgrees(cfg: Config, s: State, k: nat, turn: Turn, now: Instant, announcement: Id, j: int)
    requires LeaseInv(cfg, s) && RecordsAgree(s) && 0 <= j < |s.grants|
    requires Holds(s, k) && ValidTurn(s.grants[k].record, turn) && announcement !in s.rows
    ensures RecordAgrees(AfterSettle(cfg, s, k, turn, now, announcement), j)
  {
    var t := AfterSettle(cfg, s, k, turn, now, announcement);
    assert RecordAgrees(s, j) && RecordAgrees(s, k);
    var r, g := s.grants[j].record, s.grants[k].record;
    CommitKeeps(s.rows, g, Decide(g, turn, cfg.policy), now, announcement, turn.at, r.id);
    if Holds(t, j) && NoneLaterSpent(t, j) {
      assert j != k && Holds(s, j);
      NoneLaterSpentBefore(s, t, j);
      if Leased(s.rows, KeyOf(g)) && g.id == r.id {
        LandedWrite(cfg, s, k);
        if k < j { assert false; }
        assert !t.grants[k].standing.Spent?;
      }
    }
  }

  lemma ClaimAgrees(cfg: Config, s: State, pick: Pick, order: seq<Id>, j: int)
    requires RecordsAgree(s) && forall id <- order :: id in s.rows
    requires 0 <= j < |AfterClaim(cfg, s, pick, order).grants|
    ensures RecordAgrees(AfterClaim(cfg, s, pick, order), j)
  {
    var t := AfterClaim(cfg, s, pick, order);
    if j < |s.grants| {
      assert RecordAgrees(s, j);
      if Holds(t, j) && NoneLaterSpent(t, j) { NoneLaterSpentBefore(s, t, j); }
    }
  }

  lemma StepRecordsAgree(cfg: Config, s: State, step: Step)
    requires LeaseInv(cfg, s) && RecordsAgree(s) && Enabled(cfg, s, step)
    ensures RecordsAgree(Apply(cfg, s, step))
  {
    var t := Apply(cfg, s, step);
    forall j | 0 <= j < |t.grants|
      ensures RecordAgrees(t, j)
    {
      match step
      case Claim(_, pick, order) => ClaimAgrees(cfg, s, pick, order, j);
      case Settle(k, turn, now, announcement) => SettleAgrees(cfg, s, k, turn, now, announcement, j);
      case _ =>
        assert RecordAgrees(s, j);
        if Holds(t, j) && NoneLaterSpent(t, j) { NoneLaterSpentBefore(s, t, j); }
    }
  }

  lemma StepRowsWillBeDue(cfg: Config, s: State, step: Step)
    requires RowsWillBeDue(cfg, s) && Enabled(cfg, s, step)
    ensures RowsWillBeDue(cfg, Apply(cfg, s, step))
  {
    var t := Apply(cfg, s, step);
    if step.Settle? {
      ScheduleBoundOf(s.grants[step.k].record, step.turn, cfg.policy);
    }
    forall id | id in t.rows
      ensures WillBeDue(cfg, t.clock, t.rows[id])
    {
      if id in s.rows { assert WillBeDue(cfg, s.clock, s.rows[id]); }
    }
  }

  lemma ScheduleBoundOf(record: Record, turn: Turn, policy: Policy)
    requires ValidTurn(record, turn)
    ensures var d := Decide(record, turn, policy);
            d.Fail? ==>
              && d.failure.retryAfter <= Longest(policy.deadRetry, MAX_RETRY_SECONDS * SECOND)
              && (d.failure.dead <==> record.deadAt.Some? || record.attempts >= policy.maxAttempts)
              && (d.announces <==> d.failure.dead && record.deadAt.None? && record.eventType != OUTBOX_EVENT_DEAD)
  {
    var p := FailurePolicy(record.deadAt.Some?, policy.maxAttempts, policy.deadRetry);
    if Schedule(record.attempts, p, turn.sample).Some? {
      ScheduleBound(record.attempts, p, turn.sample);
    }
  }

  /** A settlement made on a current record keeps deaths and announcements paired. */
  lemma CommitDeathsAnnounced(rows: Table, record: Record, d: Decision, now: Instant, announcement: Id, at: Instant)
    requires DeathsAnnounced(rows) && announcement !in rows && Leased(rows, KeyOf(record))
    requires rows[record.id].deadAt == record.deadAt && rows[record.id].eventType == record.eventType
    requires d.Fail? && record.deadAt.Some? ==> d.failure.dead
    requires d.Fail? ==>
               (d.announces <==> d.failure.dead && record.deadAt.None? && record.eventType != OUTBOX_EVENT_DEAD)
    ensures DeathsAnnounced(Commit(rows, record, d, now, announcement, at))
  {
    var after := Commit(rows, record, d, now, announcement, at);
    assert forall a, id :: Announces(after, a, id) ==>
        Announces(rows, a, id) || (a == announcement && d.Fail? && d.announces && id == record.id);
    assert forall a :: Announces(rows, a, record.id) ==> rows[record.id].deadAt.Some?;
    forall id | Ordinary(after, id) && DeadRow(after[id])
      ensures exists a :: Announces(after, a, id)
    {
      if id in rows && DeadRow(rows[id]) {
        var a :| Announces(rows, a, id);
        assert Announces(after, a, id);
      } else {
        assert Announces(after, announcement, id);
      }
    }
  }

  lemma SettleDeathsAnnounced(cfg: Config, s: State, step: Step)
    requires Inv(cfg, s) && Enabled(cfg, s, step) && step.Settle?
    ensures DeathsAnnounced(Apply(cfg, s, step).rows)
  {
    var g := s.grants[step.k].record;
    ScheduleBoundOf(g, step.turn, cfg.policy);
    assert RecordAgrees(s, step.k);
    if Leased(s.rows, KeyOf(g)) {
      LandedWrite(cfg, s, step.k);
      CommitDeathsAnnounced(s.rows, g, Decide(g, step.turn, cfg.policy), step.now, step.announcement, step.turn.at);
    }
  }

  /** Steps that neither kill, deliver nor announce keep deaths and announcements paired. */
  lemma DeathsUntouched(rows: Table, after: Table)
    requires DeathsAnnounced(rows)
    requires forall id <- rows :: id in after && after[id].eventType == rows[id].eventType
               && after[id].aggregateId == rows[id].aggregateId
               && after[id].deadAt == rows[id].deadAt && after[id].dispatchedAt == rows[id].dispatchedAt
    requires forall id <- after :: id !in rows ==> Ordinary(after, id) && after[id].deadAt.None?
    ensures DeathsAnnounced(after)
  {
    assert forall a, id :: Announces(after, a, id) ==> Announces(rows, a, id);
    forall id | Ordinary(after, id) && DeadRow(after[id])
      ensures exists a :: Announces(after, a, id)
    {
      assert Ordinary(rows, id);
      var a :| Announces(rows, a, id);
      assert Announces(after, a, id);
    }
  }

  lemma StepDeathsAnnounced(cfg: Config, s: State, step: Step)
    requires Inv(cfg, s) && Enabled(cfg, s, step)
    ensures DeathsAnnounced(Apply(cfg, s, step).rows)
  {
    if step.Settle? {
      SettleDeathsAnnounced(cfg, s, step);
    } else {
      DeathsUntouched(s.rows, Apply(cfg, s, step).rows);
    }
  }

  lemma StepInv(cfg: Config, s: State, step: Step)
    requires Inv(cfg, s) && Enabled(cfg, s, step)
    ensures Inv(cfg, Apply(cfg, s, step))
  {
    StepLeaseInv(cfg, s, step);
    StepRecordsAgree(cfg, s, step);
    StepRowsWillBeDue(cfg, s, step);
    StepDeathsAnnounced(cfg, s, step);
  }

  lemma {:induction false} RunInv(cfg: Config, s: State, steps: seq<Step>)
    requires Inv(cfg, s) && ValidRun(cfg, s, steps)
    ensures Inv(cfg, Run(cfg, s, steps))
    decreases |steps|
  {
    if steps != [] {
      StepInv(cfg, s, steps[0]);
      RunInv(cfg, Apply(cfg, s, steps[0]), steps[1..]);
    }
  }

  lemma ReachableInv(cfg: Config, steps: seq<Step>)
    requires ValidRun(cfg, START, steps)
    ensures Inv(cfg, Run(cfg, START, steps))
  {
    RunInv(cfg, START, steps);
  }

  // ---------- the promises ----------

  /** The fence, over every run: tokens are unique, and a write lands exactly on the row its claim still owns. */
  lemma OutboxFence(cfg: Config, steps: seq<Step>, k: int)
    requires ValidRun(cfg, START, steps) && Holds(Run(cfg, START, steps), k)
    ensures var s := Run(cfg, START, steps);
      && s.grants[k].record.id in s.rows
      && (Leased(s.rows, KeyOf(s.grants[k].record)) <==>
          s.rows[s.grants[k].record.id].dispatchedAt.None? && AllLaterGivenBack(s, k))
      && forall j :: Holds(s, j) && KeyOf(s.grants[j].record) == KeyOf(s.grants[k].record) ==> j == k
  {
    ReachableInv(cfg, steps);
    var s := Run(cfg, START, steps);
    FenceMeaning(cfg, s, k);
    forall j | Holds(s, j) && KeyOf(s.grants[j].record) == KeyOf(s.grants[k].record)
      ensures j == k
    {
      if j < k { Lease.TokensAreUnique(Project(s), j, k); }
      if k < j { Lease.TokensAreUnique(Project(s), k, j); }
    }
  }

  /** No two relays hold an unexpired lease on one row, as long as requeue compares with the claims' lease. */
  lemma OutboxMutualExclusion(cfg: Config, steps: seq<Step>, j: int, k: int)
    requires cfg.request.lease <= cfg.requeueLease && ValidRun(cfg, START, steps)
    requires var s := Run(cfg, START, steps);
      && Holds(s, j) && Holds(s, k) && s.grants[j].record.id == s.grants[k].record.id
      && s.clock < s.grants[j].expiresAt && s.clock < s.grants[k].expiresAt
    ensures j == k
  {
    ReachableInv(cfg, steps);
    var p := Project(Run(cfg, START, steps));
    assert Lease.Unexpired(p, j) && Lease.Unexpired(p, k);
    Lease.OneUnexpiredClaim(LeaseConfig(cfg), p, j, k);
  }

  /** A requeue never takes a row from under a live lease, as long as it compares with the claims' lease. */
  lemma RequeueSparesLiveLease(cfg: Config, s: State, ids: set<Id>, now: Instant, k: int)
    requires Inv(cfg, s) && cfg.request.lease <= cfg.requeueLease && Enabled(cfg, s, Requeue(ids, now))
    requires Holds(s, k) && s.clock < s.grants[k].expiresAt
    ensures var id, t := s.grants[k].record.id, Apply(cfg, s, Requeue(ids, now));
      id in s.rows && id !in Requeued(s.rows, ids, cfg.requeueLease, s.clock) && t.rows[id] == s.rows[id]
  {
    assert Lease.Unexpired(Project(s), k);
    assert Lease.Guarded(Project(s), k);
    assert Project(s).claims[k].expiresAt <= s.clock + cfg.request.lease;
  }

  /**
   What a settlement does in any reachable state.  Landed, it takes an attempt back exactly when the turn was
   cut off, delivers exactly when there were subscribers and all that ran succeeded, and otherwise records the
   failure: same token, the turn's error, its retry time, dead exactly when it was or its attempts are used up.
   Not landed, it writes nothing.
   */
  lemma SettlementOutcome(cfg: Config, s: State, k: nat, turn: Turn, now: Instant, announcement: Id)
    requires Inv(cfg, s) && Enabled(cfg, s, Settle(k, turn, now, announcement))
    ensures var r, t := s.grants[k].record, Apply(cfg, s, Settle(k, turn, now, announcement));
      if !Leased(s.rows, KeyOf(r)) then t.rows == s.rows
      else
        && r.id in s.rows && r.id in t.rows
        && (t.rows[r.id].attempts == r.attempts - 1 <==> CutOff(turn))
        && (t.rows[r.id].dispatchedAt.Some? <==> Succeeded(turn))
        && (Failing(r, turn, cfg.policy) ==>
              && t.rows[r.id].attempts == r.attempts && t.rows[r.id].lastError == Some(turn.lastError)
              && t.rows[r.id].nextAttemptAt == Some(now + RetryDelay(r, turn, cfg.policy))
              && (DeadRow(t.rows[r.id]) <==> r.deadAt.Some? || r.attempts >= cfg.policy.maxAttempts))
        && SettledRow(s.rows[r.id], t.rows[r.id], r, turn, cfg.policy, now)
        && SettledRest(s.rows, t.rows, r, turn, cfg.policy, announcement)
  {
    var r := s.grants[k].record;
    if Leased(s.rows, KeyOf(r)) {
      LandedWrite(cfg, s, k);
      CommitSettles(s.rows, r, turn, cfg.policy, now, announcement);
    }
  }

  /** The announcement of a row's death is written in the very step that kills it, and in no other. */
  lemma AnnouncedExactlyAtDeath(cfg: Config, s: State, step: Step, id: Id)
    requires Inv(cfg, s) && Enabled(cfg, s, step)
    ensures var t := Apply(cfg, s, step);
      (exists a :: a !in s.rows && Announces(t.rows, a, id)) <==>
      (Ordinary(s.rows, id) && s.rows[id].deadAt.None? && id in t.rows && t.rows[id].deadAt.Some?)
  {
    var t := Apply(cfg, s, step);
    if step.Settle? {
      var g := s.grants[step.k].record;
      var d := Decide(g, step.turn, cfg.policy);
      ScheduleBoundOf(g, step.turn, cfg.policy);
      assert RecordAgrees(s, step.k);
      if Leased(s.rows, KeyOf(g)) {
        LandedWrite(cfg, s, step.k);
        if d.Fail? && d.announces {
          assert Announces(t.rows, step.announcement, g.id);
        }
      }
    }
  }

  lemma DeathAnnouncedOnce(cfg: Config, steps: seq<Step>, a: Id, b: Id, id: Id)
    requires ValidRun(cfg, START, steps)
    requires var rows := Run(cfg, START, steps).rows; Announces(rows, a, id) && Announces(rows, b, id)
    ensures a == b && Ordinary(Run(cfg, START, steps).rows, id)
  {
    ReachableInv(cfg, steps);
  }

  function Announcements(rows: Table): set<Id> {
    set id | id in rows && rows[id].eventType == OUTBOX_EVENT_DEAD
  }

  function OrdinaryRows(rows: Table): set<Id> {
    set id | id in rows && rows[id].eventType != OUTBOX_EVENT_DEAD
  }

  /** Deaths cannot cascade: announcements never outnumber ordinary rows. */
  lemma AnnouncementsDoNotCascade(cfg: Config, steps: seq<Step>)
    requires ValidRun(cfg, START, steps)
    ensures var rows := Run(cfg, START, steps).rows; |Announcements(rows)| <= |OrdinaryRows(rows)|
  {
    ReachableInv(cfg, steps);
    var rows := Run(cfg, START, steps).rows;
    forall a | a in Announcements(rows)
      ensures Announces(rows, a, rows[a].aggregateId)
    {
    }
    InjectionBound(rows, Announcements(rows), OrdinaryRows(rows));
  }

  lemma {:induction false} InjectionBound(rows: Table, from: set<Id>, to: set<Id>)
    requires forall a <- from :: a in rows && rows[a].aggregateId in to
    requires forall a, b :: a in from && b in from && rows[a].aggregateId == rows[b].aggregateId ==> a == b
    ensures |from| <= |to|
    decreases |from|
  {
    if from != {} {
      var a :| a in from;
      InjectionBound(rows, from - {a}, to - {rows[a].aggregateId});
    }
  }

  /** `deadAt` keeps its first value until delivery, and a delivered row never changes again. */
  lemma DeathAndDeliveryAreFinal(cfg: Config, s: State, step: Step, id: Id)
    requires Inv(cfg, s) && Enabled(cfg, s, step) && id in s.rows
    ensures var t := Apply(cfg, s, step);
      && id in t.rows
      && (s.rows[id].deadAt.Some? ==> t.rows[id].deadAt == s.rows[id].deadAt || t.rows[id].dispatchedAt.Some?)
      && (s.rows[id].dispatchedAt.Some? ==> t.rows[id] == s.rows[id])
  {
    if step.Claim? && id in step.order {
      OrderIsClaimable(cfg, s, step, id);
    }
  }

  /** Nothing is lost: with no further write, an undelivered row is claimable within the horizon. */
  lemma NoEventLost(cfg: Config, steps: seq<Step>, id: Id, later: Instant)
    requires ValidRun(cfg, START, steps)
    requires var s := Run(cfg, START, steps);
             id in s.rows && s.rows[id].dispatchedAt.None? && s.clock + Horizon(cfg) <= later
    ensures var s := Run(cfg, START, steps);
      && (DeadRow(s.rows[id]) ==> s.rows[id].nextAttemptAt.Some?)
      && Claimable(s.rows[id], {s.rows[id].eventType}, later)
  {
    ReachableInv(cfg, steps);
    var s := Run(cfg, START, steps);
    assert WillBeDue(cfg, s.clock, s.rows[id]);
  }

  // ---------- handlers ----------

  /** Only a settlement that had subscribers delivers a row, and what that leaves recorded. */
  lemma DispatchedRowIsDelivered(cfg: Config, s: State, step: Step, id: Id)
    requires Inv(cfg, s) && Enabled(cfg, s, step) && id in s.rows && s.rows[id].dispatchedAt.None?
    requires Apply(cfg, s, step).rows[id].dispatchedAt.Some?
    ensures step.Settle? && s.grants[step.k].record.id == id && step.turn.subscribed != {}
    ensures forall h <- step.turn.subscribed ::
              h in Apply(cfg, s, step).rows[id].deliveries <==> (h in s.rows[id].deliveries || h !in INHERITED)
  {
    if step.Settle? {
      assert RecordAgrees(s, step.k);
    }
  }

  /** So every subscriber is recorded exactly when none of them is an unrecorded inherited key. */
  lemma EverySubscriberRecorded(cfg: Config, s: State, step: Step, id: Id)
    requires Inv(cfg, s) && Enabled(cfg, s, step) && id in s.rows && s.rows[id].dispatchedAt.None?
    requires Apply(cfg, s, step).rows[id].dispatchedAt.Some?
    ensures step.Settle?
    ensures step.turn.subscribed <= Apply(cfg, s, step).rows[id].deliveries.Keys <==>
            step.turn.subscribed * INHERITED <= s.rows[id].deliveries.Keys
  {
    DispatchedRowIsDelivered(cfg, s, step, id);
  }

  /** A handler named after an inherited key is never run, and its row is delivered without it. */
  lemma InheritedNameIsSkipped(record: Record, at: Instant, policy: Policy)
    requires record.deliveries == map[]
    ensures var turn := Turn(false, {"constructor"}, map[], at, "", 0.0);
      && ValidTurn(record, turn) && Decide(record, turn, policy) == Dispatch(map[])
  {
    var turn := Turn(false, {"constructor"}, map[], at, "", 0.0);
    assert ToRun(record, turn.subscribed) == {};
    assert Delivered(turn) == map[];
  }

  lemma DeliveriesOnlyGrow(cfg: Config, s: State, step: Step, id: Id)
    requires Enabled(cfg, s, step) && id in s.rows
    ensures id in Apply(cfg, s, step).rows
    ensures s.rows[id].deliveries.Keys <= Apply(cfg, s, step).rows[id].deliveries.Keys
  {
  }

  /** A handler recorded on a row is never run again by a claim made after that. */
  lemma {:induction false} RecordedHandlerNeverRunsAgain(cfg: Config, s: State, steps: seq<Step>, id: Id, h: Handler, k: int)
    requires ValidRun(cfg, s, steps) && id in s.rows && h in s.rows[id].deliveries
    requires |s.grants| <= k < |Run(cfg, s, steps).grants| && Run(cfg, s, steps).grants[k].record.id == id
    ensures h in Run(cfg, s, steps).grants[k].record.deliveries
    ensures forall subscribed :: h !in ToRun(Run(cfg, s, steps).grants[k].record, subscribed)
    decreases |steps|
  {
    var t := Apply(cfg, s, steps[0]);
    DeliveriesOnlyGrow(cfg, s, steps[0], id);
    if |t.grants| <= k {
      RecordedHandlerNeverRunsAgain(cfg, t, steps[1..], id, h, k);
    } else {
      RecordsAreKept(cfg, t, steps[1..], k);
    }
  }

  /** A handler that succeeded in a turn that delivered its row or recorded a failure never runs again for that row. */
  lemma SucceededHandlerNeverRunsAgain(cfg: Config, s: State, k: nat, turn: Turn, now: Instant, announcement: Id,
                                       after: seq<Step>, h: Handler, j: int)
    requires Inv(cfg, s) && Enabled(cfg, s, Settle(k, turn, now, announcement)) && Leased(s.rows, KeyOf(s.grants[k].record))
    requires Succeeded(turn) || Failing(s.grants[k].record, turn, cfg.policy)
    requires h in turn.runs && turn.runs[h].Ok?
    requires ValidRun(cfg, Apply(cfg, s, Settle(k, turn, now, announcement)), after)
    requires var u := Run(cfg, Apply(cfg, s, Settle(k, turn, now, announcement)), after);
             |s.grants| <= j < |u.grants| && u.grants[j].record.id == s.grants[k].record.id
    ensures var id, t := s.grants[k].record.id, Apply(cfg, s, Settle(k, turn, now, announcement));
            id in t.rows && h in t.rows[id].deliveries && t.rows[id].deliveries[h] == turn.at
    ensures var u := Run(cfg, Apply(cfg, s, Settle(k, turn, now, announcement)), after);
            forall subscribed :: h !in ToRun(u.grants[j].record, subscribed)
  {
    SettlementOutcome(cfg, s, k, turn, now, announcement);
    var t := Apply(cfg, s, Settle(k, turn, now, announcement));
    RecordedHandlerNeverRunsAgain(cfg, t, after, s.grants[k].record.id, h, j);
  }

  lemma {:induction false} RecordsAreKept(cfg: Config, s: State, steps: seq<Step>, k: int)
    requires ValidRun(cfg, s, steps) && 0 <= k < |s.grants|
    ensures |s.grants| <= |Run(cfg, s, steps).grants| && Run(cfg, s, steps).grants[k].record == s.grants[k].record
    decreases |steps|
  {
    if steps != [] {
      RecordsAreKept(cfg, Apply(cfg, s, steps[0]), steps[1..], k);
    }
  }
}
