/**
 Why a requeue must compare with the lease that claims use: with any shorter one, a row that died and was
 claimed again is handed to another relay while that claim still runs.
 */
module OutboxShortRequeue {
  import opened Wrappers
  import opened Ordering
  import Lease
  import opened OutboxRepository
  import opened OutboxRelay
  import opened OutboxSystem

  /** Dead after one attempt and retried at once; claims and requeues use the two lengths. */
  function ShortRequeue(lease: nat, requeueLease: nat): Config {
    Config(ClaimRequest(1, {"created"}, lease), requeueLease, Policy(1, 0))
  }

  const CREATED := Event("created", 7, 0)

  function NoSubscriber(): Turn {
    Turn(false, {}, map[], 0, "no subscriber", 0.0)
  }

  /** The row dies, a relay claims it again, the operator requeues it, another relay claims it. */
  function ShortRequeueRun(): seq<Step> {
    [ Produce(0, CREATED),
      Claim({}, Pick({0}, {}, {0}), [0]),
      Settle(0, NoSubscriber(), 0, 1),
      Claim({}, Pick({}, {0}, {0}), [0]),
      Requeue({0}, 0),
      Claim({}, Pick({}, {0}, {0}), [0]) ]
  }

  function Dying(attempts: int, due: Option<Instant>, deadAt: Option<Instant>, error: Option<string>): Row {
    Row("created", 7, 0, None, attempts, error, due, deadAt, map[])
  }

  /** The row after it died and was claimed `attempts` times, beside the announcement of its death. */
  function DeadTable(attempts: int, due: Instant): Table {
    map[0 := Dying(attempts, Some(due), Some(0), Some("no subscriber")), 1 := OutboxRepository.Inserted(Event(OUTBOX_EVENT_DEAD, 0, 0))]
  }

  function Taken(attempts: int, deadAt: Option<Instant>, standing: Lease.Standing, lease: nat): Grant {
    Grant(Record(0, "created", 7, 0, attempts, deadAt, map[]), lease, standing)
  }

  /** The state after `step` steps of that run. */
  function ShortRequeueState(step: nat, lease: nat): State {
    var died, again := Taken(1, None, Lease.Spent, lease), Taken(2, Some(0), Lease.Held, lease);
    match step
    case 0 => START
    case 1 => State(map[0 := Dying(0, None, None, None)], [], 0)
    case 2 => State(map[0 := Dying(1, Some(lease), None, None)], [Taken(1, None, Lease.Held, lease)], 0)
    case 3 => State(DeadTable(1, 0), [died], 0)
    case 4 => State(DeadTable(2, lease), [died, again], 0)
    case 5 => State(DeadTable(2, 0), [died, again], 0)
    case _ => State(DeadTable(3, lease), [died, again, Taken(3, Some(0), Lease.Held, lease)], 0)
  }

  ghost predicate Next(cfg: Config, s: State, step: Step, t: State) {
    Enabled(cfg, s, step) && Apply(cfg, s, step) == t
  }

  lemma {:induction false} Chain(cfg: Config, states: nat -> State, steps: seq<Step>, i: nat)
    requires i <= |steps| && forall j :: i <= j < |steps| ==> Next(cfg, states(j), steps[j], states(j + 1))
    ensures ValidRun(cfg, states(i), steps[i..]) && Run(cfg, states(i), steps[i..]) == states(|steps|)
    decreases |steps| - i
  {
    if i < |steps| {
      assert Next(cfg, states(i), steps[i], states(i + 1));
      Chain(cfg, states, steps, i + 1);
      assert steps[i..][1..] == steps[i + 1..];
    }
  }

  /** A claim of the one row that is free. */
  lemma ClaimsTheRow(cfg: Config, s: State, t: State, live: set<Id>, dead: set<Id>)
    requires FreeLive(s.rows, cfg.request, s.clock, {}) == live && FreeDead(s.rows, cfg.request, s.clock, {}) == dead
    requires ((live == {0} && dead == {}) || (live == {} && dead == {0})) && cfg.request.limit == 1
    requires 0 in s.rows && AfterClaim(cfg, s, Pick(live, dead, {0}), [0]) == t
    ensures Next(cfg, s, Claim({}, Pick(live, dead, {0}), [0]), t)
  {
    assert live + dead == {0};
  }

  lemma LiveRowClaimed(lease: nat, requeueLease: nat)
    ensures Next(ShortRequeue(lease, requeueLease), ShortRequeueState(1, lease), ShortRequeueRun()[1], ShortRequeueState(2, lease))
  {
    var cfg, s := ShortRequeue(lease, requeueLease), ShortRequeueState(1, lease);
    assert FreeLive(s.rows, cfg.request, 0, {}) == {0};
    assert FreeDead(s.rows, cfg.request, 0, {}) == {};
    ClaimsTheRow(cfg, s, ShortRequeueState(2, lease), {0}, {});
  }

  lemma DeadRowClaimed(lease: nat, requeueLease: nat, step: nat)
    requires step == 3 || step == 5
    ensures Next(ShortRequeue(lease, requeueLease), ShortRequeueState(step, lease), ShortRequeueRun()[step], ShortRequeueState(step + 1, lease))
  {
    var cfg, s := ShortRequeue(lease, requeueLease), ShortRequeueState(step, lease);
    assert FreeLive(s.rows, cfg.request, 0, {}) == {};
    assert FreeDead(s.rows, cfg.request, 0, {}) == {0};
    ClaimsTheRow(cfg, s, ShortRequeueState(step + 1, lease), {}, {0});
  }

  lemma RowDies(lease: nat, requeueLease: nat)
    ensures Next(ShortRequeue(lease, requeueLease), ShortRequeueState(2, lease), ShortRequeueRun()[2], ShortRequeueState(3, lease))
  {
    assert ToRun(ShortRequeueState(2, lease).grants[0].record, {}) == {};
  }

  lemma ShortRequeueStep(lease: nat, requeueLease: nat, i: nat)
    requires requeueLease < lease && i < 6
    ensures Next(ShortRequeue(lease, requeueLease), ShortRequeueState(i, lease), ShortRequeueRun()[i], ShortRequeueState(i + 1, lease))
  {
    if i == 1 {
      LiveRowClaimed(lease, requeueLease);
    } else if i == 2 {
      RowDies(lease, requeueLease);
    } else if i == 3 || i == 5 {
      DeadRowClaimed(lease, requeueLease, i);
    }
  }

  /** With any requeue lease shorter than the claim lease a run hands a dead row to two unexpired claims. */
  lemma ShortRequeueBreaksExclusion(lease: nat, requeueLease: nat)
    requires requeueLease < lease
    ensures ValidRun(ShortRequeue(lease, requeueLease), START, ShortRequeueRun())
    ensures var s := Run(ShortRequeue(lease, requeueLease), START, ShortRequeueRun());
      && Holds(s, 1) && Holds(s, 2) && s.grants[1].record.id == s.grants[2].record.id
      && s.clock < s.grants[1].expiresAt && s.clock < s.grants[2].expiresAt
  {
    var cfg, states, steps := ShortRequeue(lease, requeueLease), (i: nat) => ShortRequeueState(i, lease), ShortRequeueRun();
    forall i | 0 <= i < 6
      ensures Next(cfg, states(i), steps[i], states(i + 1))
    {
      ShortRequeueStep(lease, requeueLease, i);
    }
    Chain(cfg, states, steps, 0);
    assert steps[0..] == steps;
  }
}
