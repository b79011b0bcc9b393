/**
 The outbox relay: what one claimed record turns into, and how the bounded lanes share a claim.
 */
module OutboxRelay {
  import opened Wrappers
  import opened Ordering
  import opened Lease
  import opened Jitter
  import opened OutboxRepository

  const SETTLE_MARGIN_SECONDS := 10

  // ---------- delivering one record ----------

  datatype HandlerRun = Ok | Failed | Interrupted

  /**
   The relay asks `name in record.deliveries`, which on a plain object also answers for the keys
   every object inherits.  Of those, one is a legal handler name.
   */
  const INHERITED: set<Handler> := {"constructor"}

  predicate HasKey(deliveries: map<Handler, Instant>, name: Handler) {
    name in deliveries || name in INHERITED
  }

  /** The handlers this delivery runs. */
  function ToRun(record: Record, subscribed: set<Handler>): set<Handler> {
    set h | h in subscribed && !HasKey(record.deliveries, h)
  }

  datatype Policy = Policy(maxAttempts: int, deadRetry: nat)

  /** What came of the record's turn in a lane. `runs` holds an outcome for each handler run. */
  datatype Turn = Turn(
    halted: bool,
    subscribed: set<Handler>,
    runs: map<Handler, HandlerRun>,
    at: Instant,
    lastError: string,
    sample: real)

  predicate ValidTurn(record: Record, turn: Turn) {
    0.0 <= turn.sample < 1.0 && turn.runs.Keys == ToRun(record, turn.subscribed)
  }

  /** Refused: the retry delay was NaN, so the failure could not be written. */
  datatype Decision =
    | Dispatch(delivered: map<Handler, Instant>)
    | Fail(failure: Failure, announces: bool)
    | GiveUp
    | Refused

  function Delivered(turn: Turn): map<Handler, Instant> {
    map h | h in turn.runs && turn.runs[h].Ok? :: turn.at
  }

  function FailureOf(record: Record, turn: Turn, delivered: map<Handler, Instant>, policy: Policy): Decision
    requires 0.0 <= turn.sample < 1.0
  {
    var wasDead := record.deadAt.Some?;
    match Schedule(record.attempts, FailurePolicy(wasDead, policy.maxAttempts, policy.deadRetry), turn.sample)
    case None => Refused
    case Some(s) =>
      Fail(Failure(turn.lastError, s.retryAfter, s.dead, delivered),
           s.dead && !wasDead && record.eventType != OUTBOX_EVENT_DEAD)
  }

  function Decide(record: Record, turn: Turn, policy: Policy): Decision
    requires ValidTurn(record, turn)
  {
    if turn.halted then GiveUp
    else if turn.subscribed == {} then FailureOf(record, turn, map[], policy)
    else if exists h :: h in turn.runs && turn.runs[h].Interrupted? then GiveUp
    else if forall h <- turn.runs :: turn.runs[h].Ok? then Dispatch(Delivered(turn))
    else FailureOf(record, turn, Delivered(turn), policy)
  }

  /** One transaction: the failure, and with it the announcement of a death it caused. */
  function Commit(t: Table, record: Record, decision: Decision, now: Instant, announcement: Id, at: Instant): Table {
    var key := OutboxRepository.KeyOf(record);
    match decision
    case Dispatch(delivered) => MarkDelivered(t, key, delivered, now)
    case Fail(failure, announces) =>
      var written := MarkFailed(t, key, failure, now);
      if Leased(t, key) && announces
      then Enqueue(written, announcement, Event(OUTBOX_EVENT_DEAD, record.id, at))
      else written
    case GiveUp => Release(t, key, now)
    case Refused => t
  }

  // ---------- what a turn leaves on its row ----------

  /** The turn was cut off: the relay was stopping, or interrupted one of the handlers. */
  ghost predicate CutOff(turn: Turn) {
    turn.halted || (turn.subscribed != {} && exists h :: h in turn.runs && turn.runs[h].Interrupted?)
  }

  /** There were subscribers, and every handler the turn ran succeeded. */
  ghost predicate Succeeded(turn: Turn) {
    !turn.halted && turn.subscribed != {} && forall h :: h in turn.runs ==> turn.runs[h].Ok?
  }

  ghost predicate UsedUp(record: Record, policy: Policy) {
    record.attempts >= policy.maxAttempts
  }

  /** The one failure that cannot be written: its retry delay is not a number. */
  ghost predicate Unwritable(record: Record, turn: Turn, policy: Policy) {
    record.deadAt.None? && !UsedUp(record, policy) && Overflows(record.attempts) && turn.sample == 0.0
  }

  ghost predicate Failing(record: Record, turn: Turn, policy: Policy) {
    !CutOff(turn) && !Succeeded(turn) && !Unwritable(record, turn, policy)
  }

  /** What the failure of a turn waits, in ticks: the slow cadence once dead, a drawn delay before. */
  ghost function RetryDelay(record: Record, turn: Turn, policy: Policy): int
    requires 0.0 <= turn.sample < 1.0
  {
    if record.deadAt.Some? || UsedUp(record, policy) then policy.deadRetry
    else RetryAfterSeconds(record.attempts, turn.sample).GetOr(0) * SECOND
  }

  /** The handlers that succeeded in the turn are recorded at its time, what was recorded before stays. */
  ghost predicate RecordsRuns(row: Row, after: Row, turn: Turn) {
    && (forall h :: h in after.deliveries <==> h in row.deliveries || (h in turn.runs && turn.runs[h].Ok?))
    && (forall h <- after.deliveries ::
          after.deliveries[h] == if h in turn.runs && turn.runs[h].Ok? then turn.at else row.deliveries[h])
  }

  /** The columns that tell the four endings of a turn apart. */
  ghost predicate EndsAs(row: Row, after: Row, record: Record, turn: Turn, policy: Policy) {
    && (after.attempts == row.attempts - 1 <==> CutOff(turn))
    && (after.dispatchedAt.Some? <==> Succeeded(turn))
    && (after == row <== !CutOff(turn) && !Succeeded(turn) && Unwritable(record, turn, policy))
    && (Failing(record, turn, policy) ==>
          (DeadRow(after) <==> row.deadAt.Some? || record.deadAt.Some? || UsedUp(record, policy)))
  }

  /** What a landed settlement of `record` leaves of its row, column by column. */
  ghost predicate SettledRow(row: Row, after: Row, record: Record, turn: Turn, policy: Policy, now: Instant)
    requires 0.0 <= turn.sample < 1.0
  {
    && EndsAs(row, after, record, turn, policy)
    && (CutOff(turn) ==> after == row.(attempts := row.attempts - 1, nextAttemptAt := Some(now)))
    && (Succeeded(turn) ==>
          && RecordsRuns(row, after, turn)
          && after == row.(dispatchedAt := Some(now), nextAttemptAt := None, deadAt := None, deliveries := after.deliveries))
    && (Failing(record, turn, policy) ==>
          && RecordsRuns(row, after, turn)
          && after == row.(lastError := Some(turn.lastError),
                           nextAttemptAt := Some(now + RetryDelay(record, turn, policy)),
                           deadAt := if record.deadAt.Some? || UsedUp(record, policy) then Some(row.deadAt.GetOr(now)) else row.deadAt,
                           deliveries := after.deliveries))
  }

  /** A row dies of this turn, and its death is announced unless it is itself an announcement. */
  ghost predicate Dies(record: Record, turn: Turn, policy: Policy) {
    Failing(record, turn, policy) && record.deadAt.None? && UsedUp(record, policy)
  }

  ghost predicate Announced(record: Record, turn: Turn, policy: Policy) {
    Dies(record, turn, policy) && record.eventType != OUTBOX_EVENT_DEAD
  }

  /** Nothing but the row itself changes, except for the announcement of its death. */
  ghost predicate SettledRest(t: Table, after: Table, record: Record, turn: Turn, policy: Policy, announcement: Id) {
    && after.Keys == t.Keys + (if Announced(record, turn, policy) then {announcement} else {})
    && (forall other <- t :: other != record.id ==> after[other] == t[other])
    && (Announced(record, turn, policy) && announcement !in t ==>
          after[announcement] == Row(OUTBOX_EVENT_DEAD, record.id, turn.at, None, 0, None, None, None, map[]))
  }

  /** How a failing turn is decided. */
  lemma FailureDecided(record: Record, turn: Turn, policy: Policy)
    requires ValidTurn(record, turn) && !CutOff(turn) && !Succeeded(turn)
    ensures var d := Decide(record, turn, policy);
      if Unwritable(record, turn, policy) then d.Refused?
      else
        && d.Fail? && d.failure.lastError == turn.lastError && d.failure.retryAfter == RetryDelay(record, turn, policy)
        && (d.failure.dead <==> record.deadAt.Some? || UsedUp(record, policy))
        && (d.announces <==> Announced(record, turn, policy))
        && d.failure.deliveries == Delivered(turn)
  {
    var p := FailurePolicy(record.deadAt.Some?, policy.maxAttempts, policy.deadRetry);
    ScheduleMissing(record.attempts, p, turn.sample);
    if !Unwritable(record, turn, policy) { ScheduleBound(record.attempts, p, turn.sample); }
    if turn.subscribed == {} { assert Delivered(turn) == map[]; }
  }

  /** Which decision stands for which ending. */
  lemma DecisionMeans(record: Record, turn: Turn, policy: Policy)
    requires ValidTurn(record, turn)
    ensures var d := Decide(record, turn, policy);
      && (d.GiveUp? <==> CutOff(turn)) && (d.Dispatch? <==> Succeeded(turn))
      && (d.Fail? <==> Failing(record, turn, policy))
      && (d.Fail? && d.failure.dead && record.deadAt.None? <==> Dies(record, turn, policy))
  {
    if !CutOff(turn) && !Succeeded(turn) { FailureDecided(record, turn, policy); }
  }

  /** A landed settlement does to the table what the outcome of its turn calls for. */
  lemma CommitSettles(t: Table, record: Record, turn: Turn, policy: Policy, now: Instant, announcement: Id)
    requires ValidTurn(record, turn) && Leased(t, OutboxRepository.KeyOf(record))
    ensures var after := Commit(t, record, Decide(record, turn, policy), now, announcement, turn.at);
      && record.id in after && SettledRow(t[record.id], after[record.id], record, turn, policy, now)
      && SettledRest(t, after, record, turn, policy, announcement)
  {
    if !CutOff(turn) && !Succeeded(turn) { FailureDecided(record, turn, policy); }
  }

  class Relay {
    var dispatched: nat
    var failed: nat
    var died: nat
    var released: nat

    /** One record's turn in a lane, ending in one write.  The counters follow what was written. */
    method Settle(repository: DrizzleOutboxRepository, record: Record, turn: Turn, policy: Policy, now: Instant, announcement: Id)
      requires ValidTurn(record, turn)
      modifies this, repository
      ensures repository.rows
           == Commit(old(repository.rows), record, Decide(record, turn, policy), now, announcement, turn.at)
      ensures var t := old(repository.rows);
        if !Leased(t, OutboxRepository.KeyOf(record)) then repository.rows == t
        else
          && record.id in repository.rows
          && SettledRow(t[record.id], repository.rows[record.id], record, turn, policy, now)
          && SettledRest(t, repository.rows, record, turn, policy, announcement)
      ensures var landed := Leased(old(repository.rows), OutboxRepository.KeyOf(record));
        && dispatched == old(dispatched) + (if landed && Succeeded(turn) then 1 else 0)
        && released == old(released) + (if landed && CutOff(turn) then 1 else 0)
        && failed == old(failed) + (if landed && Failing(record, turn, policy) then 1 else 0)
        && died == old(died) + (if landed && Dies(record, turn, policy) then 1 else 0)
    {
      if Leased(repository.rows, OutboxRepository.KeyOf(record)) {
        CommitSettles(repository.rows, record, turn, policy, now, announcement);
      }
      DecisionMeans(record, turn, policy);
      if turn.halted {
        Release(repository, record, now);
      } else if turn.subscribed == {} {
        SettleFailure(repository, record, turn, map[], policy, now, announcement);
      } else if exists h :: h in turn.runs && turn.runs[h].Interrupted? {
        Release(repository, record, now);
      } else if forall h <- turn.runs :: turn.runs[h].Ok? {
        var written := repository.DoMarkDelivered(OutboxRepository.KeyOf(record), Delivered(turn), now);
        if written { dispatched := dispatched + 1; }
      } else {
        SettleFailure(repository, record, turn, Delivered(turn), policy, now, announcement);
      }
    }

    method Release(repository: DrizzleOutboxRepository, record: Record, now: Instant)
      modifies this`released, repository
      ensures repository.rows == OutboxRepository.Release(old(repository.rows), OutboxRepository.KeyOf(record), now)
      ensures released == old(released) + (if Leased(old(repository.rows), OutboxRepository.KeyOf(record)) then 1 else 0)
    {
      var written := repository.DoRelease(OutboxRepository.KeyOf(record), now);
      if written { released := released + 1; }
    }

    method SettleFailure(repository: DrizzleOutboxRepository, record: Record, turn: Turn, delivered: map<Handler, Instant>,
                         policy: Policy, now: Instant, announcement: Id)
      requires 0.0 <= turn.sample < 1.0
      modifies this`failed, this`died, repository
      ensures var d, landed := FailureOf(record, turn, delivered, policy), Leased(old(repository.rows), OutboxRepository.KeyOf(record));
        && repository.rows == Commit(old(repository.rows), record, d, now, announcement, turn.at)
        && failed == old(failed) + (if landed && d.Fail? then 1 else 0)
        && died == old(died) + (if landed && d.Fail? && d.failure.dead && record.deadAt.None? then 1 else 0)
    {
      var wasDead := record.deadAt.Some?;
      match Schedule(record.attempts, FailurePolicy(wasDead, policy.maxAttempts, policy.deadRetry), turn.sample)
      case None =>
      case Some(s) =>
        var failure := Failure(turn.lastError, s.retryAfter, s.dead, delivered);
        var written := repository.DoMarkFailed(OutboxRepository.KeyOf(record), failure, now);
        if !written { return; }
        if s.dead && !wasDead && record.eventType != OUTBOX_EVENT_DEAD {
          repository.EnqueueEvents([(announcement, Event(OUTBOX_EVENT_DEAD, record.id, turn.at))]);
        }
        failed := failed + 1;
        if s.dead && !wasDead { died := died + 1; }
    }
  }

  // ---------- bounded lanes ----------

  datatype Options = Options(batchSize: nat, leaseSeconds: int, concurrency: int, handlerBudgetSeconds: int)

  function Max(a: int, b: int): int { if a < b then b else a }

  function Min(a: int, b: int): int { if a < b then a else b }

  /** Division by a positive number rounds down, as flooring the quotient does. */
  function ClaimLimitOf(options: Options): int
    requires options.handlerBudgetSeconds > 0
  {
    var usable := options.leaseSeconds - SETTLE_MARGIN_SECONDS;
    var rounds := Max(1, usable / options.handlerBudgetSeconds);
    Min(options.batchSize, rounds * Max(1, options.concurrency))
  }

  /**
   A claim may have `n` records exactly when they fit the batch size and some number of rounds, one record a
   lane, whose handler budgets fit the lease up to the settle margin; one round always counts as fitting.
   */
  lemma ClaimLimitIsLargest(options: Options, n: nat)
    requires options.handlerBudgetSeconds > 0
    ensures n <= ClaimLimitOf(options) <==>
            n <= options.batchSize && exists rounds: nat :: RoundsHold(options, rounds, n)
  {
    var usable := options.leaseSeconds - SETTLE_MARGIN_SECONDS;
    var lanes := Max(1, options.concurrency);
    var rounds := Max(1, usable / options.handlerBudgetSeconds);
    QuotientIsLargest(usable, options.handlerBudgetSeconds, rounds);
    if n <= ClaimLimitOf(options) {
      assert RoundsHold(options, rounds, n);
    }
    if r: nat :| RoundsHold(options, r, n) {
      QuotientIsLargest(usable, options.handlerBudgetSeconds, r);
      MultiplyOrdered(r, rounds, lanes);
    }
  }

  /** `n` records fit `rounds` rounds, and these fit the lease. */
  predicate RoundsHold(options: Options, rounds: nat, n: nat) {
    && n <= rounds * (if options.concurrency > 1 then options.concurrency else 1)
    && (rounds <= 1 || rounds * options.handlerBudgetSeconds <= options.leaseSeconds - SETTLE_MARGIN_SECONDS)
  }

  lemma QuotientIsLargest(usable: int, budget: int, rounds: int)
    requires budget > 0 && rounds >= 0
    ensures rounds <= Max(1, usable / budget) <==> rounds <= 1 || rounds * budget <= usable
  {
    MultiplesBelow(usable / budget, budget, usable % budget, rounds);
  }

  lemma MultiplesBelow(quotient: int, budget: int, rest: int, rounds: int)
    requires 0 <= rest < budget
    ensures rounds <= quotient <==> rounds * budget <= quotient * budget + rest
  {
    if rounds <= quotient {
      assert (quotient - rounds) * budget >= 0;
    } else {
      assert (rounds - quotient - 1) * budget >= 0;
    }
  }

  /** The turns of the lanes so far: `lane` took the next record at `start`, for `duration`. */
  datatype Log = Empty | Took(before: Log, lane: nat, start: nat, duration: nat, rejected: bool)

  function LaneCount(concurrency: int, records: nat): nat {
    Max(0, Min(concurrency, records))
  }

  /** A round gives every lane one record.  `time` is when its lanes are free at the latest. */
  datatype Round = Round(time: nat, taken: nat)

  /** The round under way after `gone` records. */
  function RoundAt(gone: nat, lanes: nat, budget: nat): Round {
    if gone == 0 then Round(0, 0)
    else
      var r := RoundAt(gone - 1, lanes, budget);
      if r.taken + 1 >= lanes then Round(r.time + budget, 0) else Round(r.time, r.taken + 1)
  }

  /** When record `i` must have ended: one budget for each full round before it, and its own. */
  function Deadline(i: nat, lanes: nat, budget: nat): nat {
    RoundAt(i, lanes, budget).time + budget
  }

  /** How many lanes are free by `time`. */
  ghost function FreeBy(freeAt: seq<nat>, time: nat): nat
    decreases |freeAt|
  {
    if freeAt == [] then 0 else (if freeAt[0] <= time then 1 else 0) + FreeBy(freeAt[1..], time)
  }

  lemma {:induction false} FreeByUpdate(freeAt: seq<nat>, time: nat, lane: nat, x: nat)
    requires lane < |freeAt|
    ensures FreeBy(freeAt[lane := x], time) + 1 >= FreeBy(freeAt, time)
    decreases |freeAt|
  {
    if lane == 0 {
      assert freeAt[lane := x][1..] == freeAt[1..];
    } else {
      FreeByUpdate(freeAt[1..], time, lane - 1, x);
      assert freeAt[lane := x][1..] == freeAt[1..][lane - 1 := x];
    }
  }

  lemma {:induction false} FreeByBounds(freeAt: seq<nat>, time: nat)
    ensures (forall l :: 0 <= l < |freeAt| ==> freeAt[l] <= time) ==> FreeBy(freeAt, time) == |freeAt|
    ensures (forall l :: 0 <= l < |freeAt| ==> freeAt[l] > time) ==> FreeBy(freeAt, time) == 0
    decreases |freeAt|
  {
    if freeAt != [] {
      FreeByBounds(freeAt[1..], time);
      assert forall l :: 0 <= l < |freeAt| - 1 ==> freeAt[1..][l] == freeAt[l + 1];
    }
  }

  ghost predicate OnSchedule(round: Round, freeAt: seq<nat>, budget: nat) {
    && (freeAt != [] ==> round.taken < |freeAt|)
    && FreeBy(freeAt, round.time) + round.taken >= |freeAt|
    && forall l :: 0 <= l < |freeAt| ==> freeAt[l] <= round.time + budget
  }

  /** The lane that is free first takes the next record in time, and the schedule holds on. */
  lemma TakeTurn(round: Round, next: Round, freeAt: seq<nat>, after: seq<nat>, budget: nat, lane: nat, duration: nat)
    requires OnSchedule(round, freeAt, budget) && duration <= budget
    requires lane < |freeAt| && forall l :: 0 <= l < |freeAt| ==> freeAt[lane] <= freeAt[l]
    requires after == freeAt[lane := freeAt[lane] + duration]
    requires next == if round.taken + 1 >= |freeAt| then Round(round.time + budget, 0) else Round(round.time, round.taken + 1)
    ensures freeAt[lane] + duration <= round.time + budget
    ensures OnSchedule(next, after, budget)
  {
    FreeByBounds(freeAt, round.time);
    if round.taken + 1 < |freeAt| {
      FreeByUpdate(freeAt, round.time, lane, freeAt[lane] + duration);
    } else {
      FreeByBounds(after, next.time);
    }
  }

  function Taken(log: Log): nat {
    if log.Empty? then 0 else Taken(log.before) + 1
  }

  /** When each lane is free again. */
  function FreeAt(log: Log, lanes: nat): (r: seq<nat>)
    ensures |r| == lanes
  {
    match log
    case Empty => seq(lanes, _ => 0)
    case Took(before, lane, start, duration, _) =>
      var freeAt := FreeAt(before, lanes);
      if lane < lanes then freeAt[lane := start + duration] else freeAt
  }

  predicate AnyRejected(log: Log) {
    log.Took? && (log.rejected || AnyRejected(log.before))
  }

  /** A lane stops at its first rejection. */
  predicate RejectedOn(log: Log, lane: nat) {
    log.Took? && ((log.rejected && log.lane == lane) || RejectedOn(log.before, lane))
  }

  /** The turn of record `i`, as the log that ends with it. */
  function TurnOf(log: Log, i: nat): (turn: Log)
    requires i < Taken(log)
    ensures turn.Took?
  {
    if i == Taken(log.before) then log else TurnOf(log.before, i)
  }

  /** Every record taken keeps its own duration and outcome, and a lane takes none after one that rejected. */
  ghost predicate Accounted(log: Log, durations: seq<nat>, rejects: seq<bool>)
    requires |rejects| == |durations|
  {
    && Taken(log) <= |durations|
    && (forall i: nat :: i < Taken(log) ==> TurnOf(log, i).duration == durations[i] && TurnOf(log, i).rejected == rejects[i])
    && (forall i: nat, j: nat :: i < j < Taken(log) && TurnOf(log, i).lane == TurnOf(log, j).lane ==> !rejects[i])
  }

  /** Some turn of the lane rejected. */
  ghost predicate LaneStopped(log: Log, rejects: seq<bool>, lane: nat) {
    exists i: nat :: i < Taken(log) && i < |rejects| && TurnOf(log, i).lane == lane && rejects[i]
  }

  lemma {:induction false} TurnsAccounted(log: Log, durations: seq<nat>, rejects: seq<bool>, lanes: nat)
    requires |rejects| == |durations| && Follows(log, durations, rejects) && Greedy(log, lanes)
    ensures Accounted(log, durations, rejects)
    ensures AnyRejected(log) <==> exists i: nat :: i < Taken(log) && rejects[i]
    ensures forall lane :: RejectedOn(log, lane) <==> LaneStopped(log, rejects, lane)
  {
    if log.Took? {
      TurnsAccounted(log.before, durations, rejects, lanes);
      var n := Taken(log.before);
      assert TurnOf(log, n) == log;
      assert forall i: nat :: i < n ==> TurnOf(log, i) == TurnOf(log.before, i);
      forall lane
        ensures RejectedOn(log, lane) <==> LaneStopped(log, rejects, lane)
      {
        if i: nat :| i < n && TurnOf(log.before, i).lane == lane && rejects[i] {
          assert TurnOf(log, i).lane == lane;
        }
      }
    }
  }

  /** How many turns are under way at `time`. */
  function UnderWay(log: Log, time: nat): nat {
    if log.Empty? then 0
    else UnderWay(log.before, time) + (if log.start <= time < log.start + log.duration then 1 else 0)
  }

  /** Every record went, in order, to a living lane that was free first, as soon as it was free. */
  ghost predicate Greedy(log: Log, lanes: nat) {
    log.Took? ==>
      var freeAt := FreeAt(log.before, lanes);
      && Greedy(log.before, lanes)
      && log.lane < lanes && !RejectedOn(log.before, log.lane)
      && log.start == freeAt[log.lane]
      && forall l: nat :: l < lanes && !RejectedOn(log.before, l) ==> log.start <= freeAt[l]
  }

  /** The lanes are through: every record is taken, or every lane has rejected one. */
  ghost predicate Through(log: Log, lanes: nat, records: nat) {
    Taken(log) <= records && (Taken(log) < records ==> forall l: nat :: l < lanes ==> RejectedOn(log, l))
  }

  /** The log is about these records, taken in order, each once. */
  predicate Follows(log: Log, durations: seq<nat>, rejects: seq<bool>)
    requires |rejects| == |durations|
  {
    log.Took? ==>
      && Follows(log.before, durations, rejects)
      && Taken(log.before) < |durations|
      && log.duration == durations[Taken(log.before)]
      && log.rejected == rejects[Taken(log.before)]
  }

  /**
   Lanes share one index: whichever lane is free first takes the next record, and a lane whose
   record rejects takes no more.  `durations` and `rejects` say how each record would go.
   */
  method EachBounded(durations: seq<nat>, rejects: seq<bool>, concurrency: int) returns (log: Log, rejected: bool)
    requires |rejects| == |durations|
    ensures var lanes := LaneCount(concurrency, |durations|);
            Follows(log, durations, rejects) && Greedy(log, lanes) && Through(log, lanes, |durations|)
    ensures Accounted(log, durations, rejects)
    ensures rejected <==> exists i: nat :: i < Taken(log) && rejects[i]
    ensures Taken(log) < |durations| ==>
              forall lane: nat :: lane < concurrency && lane < |durations| ==> LaneStopped(log, rejects, lane)
    ensures forall time: nat :: UnderWay(log, time) <= (if concurrency < 0 then 0 else concurrency)
  {
    var lanes := LaneCount(concurrency, |durations|);
    var freeAt: seq<nat> := seq(lanes, _ => 0);
    var stopped: seq<bool> := seq(lanes, _ => false);
    var next := 0;
    log, rejected := Empty, false;
    while next < |durations|
      invariant next == Taken(log) <= |durations|
      invariant Follows(log, durations, rejects) && Greedy(log, lanes)
      invariant freeAt == FreeAt(log, lanes)
      invariant |stopped| == lanes && forall l :: 0 <= l < lanes ==> stopped[l] == RejectedOn(log, l)
      invariant rejected == AnyRejected(log)
    {
      var lane := FreeFirst(freeAt, stopped);
      if lane == lanes { break; }
      log := Took(log, lane, freeAt[lane], durations[next], rejects[next]);
      freeAt := freeAt[lane := freeAt[lane] + durations[next]];
      if rejects[next] {
        rejected := true;
        stopped := stopped[lane := true];
      }
      next := next + 1;
    }
    TurnsAccounted(log, durations, rejects, lanes);
    forall time: nat
      ensures UnderWay(log, time) <= (if concurrency < 0 then 0 else concurrency)
    {
      AtMostConcurrency(log, concurrency, |durations|, time);
    }
  }

  /** The number of lanes when all of them have stopped. */
  method FreeFirst(freeAt: seq<nat>, stopped: seq<bool>) returns (lane: nat)
    requires |freeAt| == |stopped|
    ensures lane <= |freeAt|
    ensures lane == |freeAt| ==> forall l :: 0 <= l < |freeAt| ==> stopped[l]
    ensures lane < |freeAt| ==> !stopped[lane] && forall l :: 0 <= l < |freeAt| && !stopped[l] ==> freeAt[lane] <= freeAt[l]
  {
    lane := |freeAt|;
    for l := 0 to |freeAt|
      invariant lane == |freeAt| ==> forall m :: 0 <= m < l ==> stopped[m]
      invariant lane != |freeAt| ==>
                  lane < l && !stopped[lane] && forall m :: 0 <= m < l && !stopped[m] ==> freeAt[lane] <= freeAt[m]
    {
      if !stopped[l] && (lane == |freeAt| || freeAt[l] < freeAt[lane]) { lane := l; }
    }
  }

  /** Every earlier turn of this lane has ended by `time`. */
  predicate LaneIdleBy(log: Log, lane: nat, time: nat) {
    log.Took? ==> LaneIdleBy(log.before, lane, time) && (log.lane == lane ==> log.start + log.duration <= time)
  }

  /** No lane works on two records at once. */
  predicate Apart(log: Log) {
    log.Took? ==> Apart(log.before) && LaneIdleBy(log.before, log.lane, log.start)
  }

  lemma {:induction false} LaneIdleLater(log: Log, lane: nat, time: nat, later: nat)
    requires LaneIdleBy(log, lane, time) && time <= later
    ensures LaneIdleBy(log, lane, later)
  {
    if log.Took? {
      LaneIdleLater(log.before, lane, time, later);
    }
  }

  lemma {:induction false} LaneIdleWhenFree(log: Log, lanes: nat, lane: nat)
    requires Greedy(log, lanes) && lane < lanes
    ensures LaneIdleBy(log, lane, FreeAt(log, lanes)[lane])
  {
    if log.Took? {
      LaneIdleWhenFree(log.before, lanes, lane);
      LaneIdleLater(log.before, lane, FreeAt(log.before, lanes)[lane], FreeAt(log, lanes)[lane]);
    }
  }

  lemma {:induction false} LanesWorkApart(log: Log, lanes: nat)
    requires Greedy(log, lanes)
    ensures Apart(log)
  {
    if log.Took? {
      LanesWorkApart(log.before, lanes);
      LaneIdleWhenFree(log.before, lanes, log.lane);
    }
  }

  /** The lanes at work at `time`. */
  function BusyLanes(log: Log, time: nat): set<nat> {
    if log.Empty? then {}
    else BusyLanes(log.before, time) + (if log.start <= time < log.start + log.duration then {log.lane} else {})
  }

  lemma {:induction false} IdleLaneIsNotBusy(log: Log, lane: nat, idle: nat, time: nat)
    requires LaneIdleBy(log, lane, idle) && idle <= time
    ensures lane !in BusyLanes(log, time)
  {
    if log.Took? {
      IdleLaneIsNotBusy(log.before, lane, idle, time);
    }
  }

  lemma {:induction false} BusyLanesCount(log: Log, lanes: nat, time: nat)
    requires Greedy(log, lanes)
    ensures UnderWay(log, time) == |BusyLanes(log, time)|
    ensures forall lane <- BusyLanes(log, time) :: lane < lanes
  {
    if log.Took? {
      BusyLanesCount(log.before, lanes, time);
      LanesWorkApart(log, lanes);
      if log.start <= time < log.start + log.duration {
        IdleLaneIsNotBusy(log.before, log.lane, log.start, time);
      }
    }
  }

  /** Never more than `concurrency` records are worked on at once, and without a lane none is. */
  lemma AtMostConcurrency(log: Log, concurrency: int, records: nat, time: nat)
    requires Greedy(log, LaneCount(concurrency, records))
    ensures UnderWay(log, time) <= (if concurrency < 0 then 0 else concurrency)
    ensures concurrency <= 0 ==> log.Empty?
  {
    var lanes := LaneCount(concurrency, records);
    BusyLanesCount(log, lanes, time);
    CountBelow(BusyLanes(log, time), lanes);
  }

  lemma {:induction false} CountBelow(numbers: set<nat>, n: nat)
    requires forall x <- numbers :: x < n
    ensures |numbers| <= n
  {
    if n == 0 {
      assert numbers == {};
    } else {
      CountBelow(numbers - {n - 1}, n - 1);
    }
  }

  /** Every lane is put to use: the first `concurrency` records all start at once. */
  lemma FirstRoundStartsAtOnce(log: Log, concurrency: int, records: nat)
    requires Greedy(log, LaneCount(concurrency, records)) && log.Took? && !AnyRejected(log.before)
    requires Taken(log.before) < concurrency && Taken(log.before) < records
    ensures log.start == 0
  {
    var lanes := LaneCount(concurrency, records);
    FreeAtTheStart(log.before, lanes);
    FreeByBounds(FreeAt(log.before, lanes), 0);
    var free: nat :| free < lanes && FreeAt(log.before, lanes)[free] == 0;
    NoRejectionAnywhere(log.before, free);
  }

  lemma {:induction false} FreeAtTheStart(log: Log, lanes: nat)
    requires Greedy(log, lanes)
    ensures FreeBy(FreeAt(log, lanes), 0) + Taken(log) >= lanes
  {
    if log.Empty? {
      FreeByBounds(FreeAt(log, lanes), 0);
    } else {
      FreeAtTheStart(log.before, lanes);
      FreeByUpdate(FreeAt(log.before, lanes), 0, log.lane, log.start + log.duration);
    }
  }

  lemma {:induction false} NoRejectionAnywhere(log: Log, lane: nat)
    requires !AnyRejected(log)
    ensures !RejectedOn(log, lane)
  {
    if log.Took? {
      NoRejectionAnywhere(log.before, lane);
    }
  }

  /** Every turn ended within its deadline. */
  predicate OnTime(log: Log, lanes: nat, budget: nat) {
    log.Took? ==>
      OnTime(log.before, lanes, budget) && log.start + log.duration <= Deadline(Taken(log.before), lanes, budget)
  }

  predicate AllWithin(log: Log, budget: nat) {
    log.Took? ==> AllWithin(log.before, budget) && log.duration <= budget
  }

  lemma {:induction false} GreedyOnSchedule(log: Log, lanes: nat, budget: nat)
    requires Greedy(log, lanes) && AllWithin(log, budget) && !AnyRejected(log)
    ensures OnSchedule(RoundAt(Taken(log), lanes, budget), FreeAt(log, lanes), budget)
    ensures OnTime(log, lanes, budget)
  {
    match log
    case Empty =>
      FreeByBounds(FreeAt(log, lanes), 0);
    case Took(before, lane, start, duration, _) =>
      GreedyOnSchedule(before, lanes, budget);
      var freeAt := FreeAt(before, lanes);
      forall l | 0 <= l < lanes
        ensures start <= freeAt[l]
      {
        NoRejectionAnywhere(before, l);
      }
      TakeTurn(RoundAt(Taken(before), lanes, budget), RoundAt(Taken(log), lanes, budget),
               freeAt, FreeAt(log, lanes), budget, lane, duration);
  }

  /** A round index counts the full rounds before it. */
  lemma {:induction false} RoundsBefore(i: nat, lanes: nat, budget: nat) returns (rounds: nat)
    requires lanes > 0
    ensures rounds * lanes <= i < (rounds + 1) * lanes
    ensures RoundAt(i, lanes, budget) == Round(rounds * budget, i - rounds * lanes)
  {
    if i == 0 {
      rounds := 0;
    } else {
      rounds := RoundsBefore(i - 1, lanes, budget);
      assert (rounds + 1) * lanes == rounds * lanes + lanes && (rounds + 1) * budget == rounds * budget + budget;
      if i == (rounds + 1) * lanes {
        rounds := rounds + 1;
        assert (rounds + 1) * lanes == rounds * lanes + lanes;
      }
    }
  }

  lemma DeadlineWithin(i: nat, lanes: nat, budget: nat, rounds: nat)
    requires lanes > 0 && i < rounds * lanes
    ensures Deadline(i, lanes, budget) <= rounds * budget
  {
    var before := RoundsBefore(i, lanes, budget);
    if before >= rounds {
      MultiplyOrdered(rounds, before, lanes);
      assert false;
    }
    MultiplyOrdered(before + 1, rounds, budget);
    assert (before + 1) * budget == before * budget + budget;
  }

  lemma MultiplyOrdered(a: nat, b: nat, c: nat)
    requires a <= b
    ensures a * c <= b * c
  {
    assert (b - a) * c >= 0;
  }

  /** Every turn of the log ended by `time`. */
  predicate EndsBy(log: Log, time: int) {
    log.Took? ==> EndsBy(log.before, time) && log.start + log.duration <= time
  }

  /** The handler budget and the lease up to its settle margin, in milliseconds. */
  function BudgetMs(options: Options): int { options.handlerBudgetSeconds * 1000 }

  function UsableMs(options: Options): int { (options.leaseSeconds - SETTLE_MARGIN_SECONDS) * 1000 }

  /** The deadline of every index below the claim limit leaves the settle margin. */
  lemma LimitDeadline(options: Options, i: nat, records: nat)
    requires options.handlerBudgetSeconds > 0 && options.concurrency >= 1
    requires options.leaseSeconds - SETTLE_MARGIN_SECONDS >= options.handlerBudgetSeconds
    requires i < records <= ClaimLimitOf(options)
    ensures Deadline(i, LaneCount(options.concurrency, records), BudgetMs(options)) <= UsableMs(options)
  {
    var budget: nat, lanes := options.handlerBudgetSeconds, LaneCount(options.concurrency, records);
    var usable := options.leaseSeconds - SETTLE_MARGIN_SECONDS;
    var rounds: nat := usable / budget;
    assert rounds * budget <= usable && rounds >= 1;
    assert rounds * BudgetMs(options) == (rounds * budget) * 1000;
    if lanes == options.concurrency {
      DeadlineWithin(i, lanes, BudgetMs(options), rounds);
    } else {
      assert i < 1 * lanes;
      DeadlineWithin(i, lanes, BudgetMs(options), 1);
    }
  }

  lemma {:induction false} DeadlinesWithinLease(options: Options, log: Log, records: nat)
    requires options.handlerBudgetSeconds > 0 && options.concurrency >= 1
    requires options.leaseSeconds - SETTLE_MARGIN_SECONDS >= options.handlerBudgetSeconds
    requires Taken(log) <= records <= ClaimLimitOf(options)
    requires OnTime(log, LaneCount(options.concurrency, records), BudgetMs(options))
    ensures EndsBy(log, UsableMs(options))
    decreases log
  {
    if log.Took? {
      DeadlinesWithinLease(options, log.before, records);
      LimitDeadline(options, Taken(log.before), records);
    }
  }

  lemma {:induction false} FollowsAllWithin(log: Log, durations: seq<nat>, rejects: seq<bool>, budget: nat)
    requires |rejects| == |durations| && Follows(log, durations, rejects)
    requires forall i :: 0 <= i < |durations| ==> durations[i] <= budget && !rejects[i]
    ensures AllWithin(log, budget) && !AnyRejected(log)
  {
    if log.Took? {
      FollowsAllWithin(log.before, durations, rejects, budget);
    }
  }

  /**
   With no rejection and every record within its budget, a whole claim of at most the claim limit
   is worked off before the settle margin of the lease, whatever the durations in milliseconds.
   */
  lemma ClaimEndsWithinLease(options: Options, log: Log, durations: seq<nat>, rejects: seq<bool>)
    requires options.handlerBudgetSeconds > 0 && options.concurrency >= 1
    requires options.leaseSeconds - SETTLE_MARGIN_SECONDS >= options.handlerBudgetSeconds
    requires |rejects| == |durations| <= ClaimLimitOf(options)
    requires forall i :: 0 <= i < |durations| ==> durations[i] <= BudgetMs(options) && !rejects[i]
    requires var lanes := LaneCount(options.concurrency, |durations|);
             Follows(log, durations, rejects) && Greedy(log, lanes) && Through(log, lanes, |durations|)
    ensures Taken(log) == |durations|
    ensures EndsBy(log, UsableMs(options))
  {
    var lanes := LaneCount(options.concurrency, |durations|);
    FollowsAllWithin(log, durations, rejects, BudgetMs(options));
    GreedyOnSchedule(log, lanes, BudgetMs(options));
    NoRejectionAnywhere(log, 0);
    DeadlinesWithinLease(options, log, |durations|);
  }
}
