/**
 Email delivery as a whole: producers and any number of workers over one table.

 A statement that settles several rows is the same as one step per row (`EmailQueue.StatementSplits`,
 `CallIsRun`), so settling steps name one grant each.  A worker may act on a claim at any later time, or
 never.  The provider is represented by the calls its answers lead to.
 */
module EmailSystem {
  import opened Wrappers
  import opened Ordering
  import Lease
  import opened Jitter
  import opened EmailQueue
  import opened EmailWorker
  import opened EmailBatch

  /** How far the chunk of a claimed row got: nothing yet, key write lost, or handed to the provider. */
  datatype Stage = Untried | Withheld | Submitted

  /** A claimed record in the hands of a worker. */
  datatype Grant = Grant(record: Record, claim: nat, expiresAt: Instant, standing: Lease.Standing, stage: Stage)

  /** What a claim saw and returned. */
  datatype ClaimLog = ClaimLog(table: Table, at: Instant, locked: set<Id>, pick: Pick, order: seq<Id>, records: seq<Record>)

  /** A batch handed to the provider. */
  datatype Send = Send(key: BatchKey, order: seq<Id>, claim: nat)

  datatype State = State(
    rows: Table,
    grants: seq<Grant>,
    claims: seq<ClaimLog>,
    sends: seq<Send>,
    exhausted: multiset<Id>,
    clock: Instant)

  /** Rendering is a fixed function of the message. */
  datatype Config = Config(request: ClaimRequest, renders: Id -> bool)

  datatype Step =
    | Tick(to: Instant)
    | Produce(id: Id, kind: Kind, template: Option<string>, now: Instant)
    | Claim(locked: set<Id>, pick: Pick, order: seq<Id>)
    | Assign(claim: nat, chunk: seq<Record>, ks: seq<nat>)
    | Finish(k: nat, call: Call, now: Instant)
    | Lose(k: nat)

  predicate Holds(s: State, k: int) {
    0 <= k < |s.grants| && s.grants[k].standing.Held?
  }

  function Renders(cfg: Config): Record -> bool {
    (r: Record) => cfg.renders(r.id)
  }

  function Entries(cfg: Config, chunk: seq<Record>): seq<Record> {
    Rendered(chunk, Renders(cfg))
  }

  /** The worker holds the whole chunk, has not tried it yet, and something in it renders. */
  ghost predicate MayAssign(cfg: Config, s: State, claim: nat, chunk: seq<Record>, ks: seq<nat>) {
    var entries := Entries(cfg, chunk);
    && claim < |s.claims| && ChunkOf(s.claims[claim].records, chunk)
    && entries != [] && |ks| == |entries|
    && forall i :: 0 <= i < |ks| ==>
         Holds(s, ks[i]) && s.grants[ks[i]].claim == claim && s.grants[ks[i]].record == entries[i] && s.grants[ks[i]].stage.Untried?
  }

  /** The calls a worker makes about a row it holds: those `SendChunk` makes. */
  ghost predicate MayFinish(cfg: Config, g: Grant, call: Call) {
    CallAllowed(call, g.record, Renders(cfg), g.stage.Submitted?)
  }

  ghost predicate Enabled(cfg: Config, s: State, step: Step) {
    match step
    case Tick(to) => s.clock <= to
    case Produce(id, _, _, now) => id !in s.rows && now <= s.clock
    case Claim(locked, pick, order) =>
      && IsPick(s.rows, cfg.request, s.clock, locked, pick)
      && Lists(order, DueOf(pick)) && InOrder(CreatedAt(s.rows), order)
    case Assign(claim, chunk, ks) => MayAssign(cfg, s, claim, chunk, ks)
    case Finish(k, call, now) => Holds(s, k) && MayFinish(cfg, s.grants[k], call) && now <= s.clock
    case Lose(k) => Holds(s, k)
  }

  function NewRecords(t: Table, order: seq<Id>, now: Instant, window: nat): (r: seq<Record>)
    requires forall id <- order :: id in t
    ensures |r| == |order|
  {
    seq(|order|, i requires 0 <= i < |order| => RecordOf(t, order[i], now, window))
  }

  function NewGrants(records: seq<Record>, claim: nat, expiresAt: Instant): (r: seq<Grant>)
    ensures |r| == |records|
  {
    seq(|records|, i requires 0 <= i < |records| => Grant(records[i], claim, expiresAt, Lease.Held, Untried))
  }

  function CallRows(t: Table, leases: set<LeaseKey>, call: Call, now: Instant): Table {
    match call
    case FailCall(_, failure) => MarkFailed(t, leases, failure, now)
    case SentCall(_, providerIds) => MarkSent(t, leases, providerIds, now)
    case ReleaseCall(_, delay) => Release(t, leases, now + delay * SECOND)
  }

  /** What a call leaves of a message it lands on: closed, waiting, or given back for as many seconds as it says. */
  lemma CallLands(t: Table, record: Record, call: Call, now: Instant)
    requires Leased(t, KeyOf(record))
    ensures var row, after := t[record.id], CallRows(t, {KeyOf(record)}, call, now);
      && OnlyRows(t, after, {record.id})
      && (call.SentCall? ==>
            && after[record.id].status.Sent? && after[record.id].sentAt == Some(now)
            && after[record.id].providerMessageId
               == if record.id in call.providerIds then Some(call.providerIds[record.id]) else None)
      && (call.FailCall? ==> after[record.id].lastError == Some(call.failure.lastError))
      && (call.FailCall? && call.failure.Final? ==> after[record.id].status.Failed?)
      && (call.FailCall? && call.failure.Retry? ==>
            && (if call.failure.dead then after[record.id].status.Dead? else after[record.id].status.Pending?)
            && after[record.id].nextAttemptAt == Some(now + call.failure.retryAfter))
      && (call.ReleaseCall? ==>
            after[record.id] == row.(attempts := row.attempts - 1, nextAttemptAt := Some(now + call.delaySeconds * 1_000_000)))
  {
  }

  function ExhaustedBy(t: Table, record: Record, call: Call): multiset<Id> {
    if call.FailCall? && Leased(t, KeyOf(record)) && Exhausts(record, call.failure) then multiset{record.id} else multiset{}
  }

  ghost predicate Held(s: State, entries: seq<Record>) {
    forall r <- entries :: Leased(s.rows, KeyOf(r))
  }

  ghost function Staged(grants: seq<Grant>, ks: seq<nat>, stage: Stage): (r: seq<Grant>)
    ensures |r| == |grants|
  {
    seq(|grants|, k requires 0 <= k < |grants| => if k in ks then grants[k].(stage := stage) else grants[k])
  }

  function AfterClaim(cfg: Config, s: State, locked: set<Id>, pick: Pick, order: seq<Id>): State
    requires forall id <- order :: id in s.rows
  {
    var records := NewRecords(s.rows, order, s.clock, cfg.request.replayWindow);
    s.(rows := ClaimRows(s.rows, DueOf(pick), s.clock, cfg.request.lease),
       grants := s.grants + NewGrants(records, |s.claims|, s.clock + cfg.request.lease),
       claims := s.claims + [ClaimLog(s.rows, s.clock, locked, pick, order, records)])
  }

  ghost function AfterAssign(s: State, claim: nat, entries: seq<Record>, ks: seq<nat>): State
    requires entries != []
  {
    var held := Held(s, entries);
    s.(rows := AssignBatch(s.rows, Leases(entries), ChunkBatchKey(entries)),
       grants := Staged(s.grants, ks, if held then Submitted else Withheld),
       sends := if held then s.sends + [Send(ChunkBatchKey(entries), IdSeq(entries), claim)] else s.sends)
  }

  function AfterFinish(s: State, k: nat, call: Call, now: Instant): State
    requires k < |s.grants|
  {
    var g := s.grants[k];
    var landed := Leased(s.rows, KeyOf(g.record));
    s.(rows := CallRows(s.rows, {KeyOf(g.record)}, call, now),
       grants := s.grants[k := g.(standing := if landed && call.ReleaseCall? then Lease.GivenBack else Lease.Spent)],
       exhausted := s.exhausted + ExhaustedBy(s.rows, g.record, call))
  }

  ghost function Apply(cfg: Config, s: State, step: Step): State
    requires Enabled(cfg, s, step)
  {
    match step
    case Tick(to) => s.(clock := to)
    case Produce(id, kind, template, now) => s.(rows := s.rows[id := Inserted(kind, template, now)])
    case Claim(locked, pick, order) => AfterClaim(cfg, s, locked, pick, order)
    case Assign(claim, chunk, ks) => AfterAssign(s, claim, Entries(cfg, chunk), ks)
    case Finish(k, call, now) => AfterFinish(s, k, call, now)
    case Lose(k) => s.(grants := s.grants[k := s.grants[k].(standing := Lease.Spent)])
  }

  const START := State(map[], [], [], [], multiset{}, 0)

  ghost predicate ValidRun(cfg: Config, s: State, steps: seq<Step>)
    decreases |steps|
  {
    steps == [] || (Enabled(cfg, s, steps[0]) && ValidRun(cfg, Apply(cfg, s, steps[0]), steps[1..]))
  }

  ghost function Run(cfg: Config, s: State, steps: seq<Step>): State
    requires ValidRun(cfg, s, steps)
    decreases |steps|
  {
    if steps == [] then s else Run(cfg, Apply(cfg, s, steps[0]), steps[1..])
  }

  // ---------- the lease machine inside ----------

  function ClaimOf(g: Grant): Lease.Claim {
    Lease.Claim(g.record.id, g.record.attempts, g.expiresAt, g.standing)
  }

  function Columns(t: Table): map<Id, Lease.Columns> {
    map id | id in t :: ColumnsOf(t[id])
  }

  function Project(s: State): Lease.State {
    Lease.State(Columns(s.rows),
                seq(|s.grants|, i requires 0 <= i < |s.grants| => ClaimOf(s.grants[i])),
                s.clock)
  }

  function LeaseConfig(cfg: Config): Lease.Config {
    Lease.Config(cfg.request.lease, cfg.request.lease)
  }

  function WriteOf(call: Call, now: Instant): Lease.Write {
    match call
    case FailCall(_, Final(_)) => Lease.Keep(true, None)
    case FailCall(_, Retry(_, _, retryAfter)) => Lease.Keep(false, Some(now + retryAfter))
    case SentCall(_, _) => Lease.Keep(true, None)
    case ReleaseCall(_, delay) => Lease.GiveBack(now + delay * SECOND)
  }

  /** The lease machine's step, if the step touches a lease at all. */
  ghost function LeaseStep(s: State, step: Step): Option<Lease.Step> {
    match step
    case Tick(to) => Some(Lease.Tick(to))
    case Produce(id, _, _, _) => Some(Lease.Insert(id))
    case Claim(_, _, order) => Some(Lease.Take(order))
    case Assign(_, _, _) => None
    case Finish(k, call, now) => Some(Lease.Use(k, WriteOf(call, now)))
    case Lose(k) => Some(Lease.Abandon(k))
  }

  ghost predicate Refines(cfg: Config, s: State, step: Step, t: State) {
    match LeaseStep(s, step)
    case None => Project(t) == Project(s)
    case Some(l) => Lease.Enabled(LeaseConfig(cfg), Project(s), l) && Lease.Apply(LeaseConfig(cfg), Project(s), l) == Project(t)
  }

  lemma AssignRefines(s: State, claim: nat, entries: seq<Record>, ks: seq<nat>)
    requires entries != []
    ensures Project(AfterAssign(s, claim, entries, ks)) == Project(s)
  {
    var t := AfterAssign(s, claim, entries, ks);
    assert Columns(t.rows) == Columns(s.rows);
    assert Project(t).claims == Project(s).claims;
  }

  lemma ClaimRefines(cfg: Config, s: State, locked: set<Id>, pick: Pick, order: seq<Id>)
    requires Lists(order, DueOf(pick))
    requires forall id <- order :: id in s.rows && Due(s.rows[id], s.clock, cfg.request.replayWindow)
    ensures Lease.Enabled(LeaseConfig(cfg), Project(s), Lease.Take(order))
    ensures Lease.Apply(LeaseConfig(cfg), Project(s), Lease.Take(order)) == Project(AfterClaim(cfg, s, locked, pick, order))
  {
    var m, t := Lease.Apply(LeaseConfig(cfg), Project(s), Lease.Take(order)), AfterClaim(cfg, s, locked, pick, order);
    assert m.rows == Columns(t.rows);
    assert m.claims == Project(t).claims;
  }

  lemma ClaimedRow(cfg: Config, s: State, step: Step, id: Id)
    requires Enabled(cfg, s, step) && step.Claim? && id in step.order
    ensures id in s.rows && id !in step.locked && Due(s.rows[id], s.clock, cfg.request.replayWindow)
  {
    PickIsDue(s.rows, cfg.request, s.clock, step.locked, step.pick, id);
  }

  lemma CallColumns(t: Table, lease: LeaseKey, call: Call, now: Instant)
    ensures Columns(CallRows(t, {lease}, call, now)) ==
            if Leased(t, lease) then Columns(t)[lease.id := Lease.Written(Columns(t)[lease.id], WriteOf(call, now))]
            else Columns(t)
  {
  }

  lemma FinishRefines(cfg: Config, s: State, k: nat, call: Call, now: Instant)
    requires Holds(s, k)
    ensures Lease.Apply(LeaseConfig(cfg), Project(s), Lease.Use(k, WriteOf(call, now))) == Project(AfterFinish(s, k, call, now))
  {
    var g, p, t := s.grants[k], Project(s), AfterFinish(s, k, call, now);
    CallColumns(s.rows, KeyOf(g.record), call, now);
    assert Leased(s.rows, KeyOf(g.record)) == Lease.Fence(p.rows, p.claims[k]);
    assert Lease.Apply(LeaseConfig(cfg), p, Lease.Use(k, WriteOf(call, now))).claims == Project(t).claims;
  }

  /** Every email step is a step of the lease machine, or none. */
  lemma StepRefines(cfg: Config, s: State, step: Step)
    requires Enabled(cfg, s, step)
    ensures Refines(cfg, s, step, Apply(cfg, s, step))
  {
    match step
    case Claim(locked, pick, order) =>
      forall id | id in order
        ensures id in s.rows && Due(s.rows[id], s.clock, cfg.request.replayWindow)
      {
        ClaimedRow(cfg, s, step, id);
      }
      ClaimRefines(cfg, s, locked, pick, order);
    case Assign(claim, chunk, ks) => AssignRefines(s, claim, Entries(cfg, chunk), ks);
    case Finish(k, call, now) => FinishRefines(cfg, s, k, call, now);
    case Produce(id, kind, template, now) =>
      assert Columns(Apply(cfg, s, step).rows) == Columns(s.rows)[id := Lease.Columns(0, false, None)];
    case _ =>
      assert Lease.Apply(LeaseConfig(cfg), Project(s), LeaseStep(s, step).value).claims == Project(Apply(cfg, s, step)).claims;
  }

  ghost predicate LeaseInv(cfg: Config, s: State) {
    Lease.Stacked(Project(s)) && Lease.Exclusive(LeaseConfig(cfg), Project(s))
  }

  lemma StepLeaseInv(cfg: Config, s: State, step: Step)
    requires LeaseInv(cfg, s) && Enabled(cfg, s, step)
    ensures LeaseInv(cfg, Apply(cfg, s, step))
  {
    StepRefines(cfg, s, step);
    if LeaseStep(s, step).Some? {
      Lease.StepStacked(LeaseConfig(cfg), Project(s), LeaseStep(s, step).value);
      Lease.StepExclusive(LeaseConfig(cfg), Project(s), LeaseStep(s, step).value);
    }
  }

  // ---------- what a grant still knows about its row ----------

  ghost predicate AllLaterGivenBack(s: State, k: int)
    requires 0 <= k < |s.grants|
  {
    forall j :: k < j < |s.grants| && s.grants[j].record.id == s.grants[k].record.id ==> s.grants[j].standing.GivenBack?
  }

  ghost predicate NoneLaterSpent(s: State, k: int)
    requires 0 <= k < |s.grants|
  {
    forall j :: k < j < |s.grants| && s.grants[j].record.id == s.grants[k].record.id ==> !s.grants[j].standing.Spent?
  }

  /** The snapshot a worker acts on: its status is current while no later claim was spent. */
  ghost predicate RecordAgrees(s: State, k: int)
    requires 0 <= k < |s.grants|
  {
    var r := s.grants[k].record;
    r.id in s.rows && (Holds(s, k) && NoneLaterSpent(s, k) ==> s.rows[r.id].status == r.status)
  }

  ghost predicate RecordsAgree(s: State) {
    forall k :: 0 <= k < |s.grants| ==> RecordAgrees(s, k)
  }

  lemma FenceMeaning(cfg: Config, s: State, k: int)
    requires LeaseInv(cfg, s) && Holds(s, k)
    ensures s.grants[k].record.id in s.rows
    ensures Leased(s.rows, KeyOf(s.grants[k].record)) <==>
            Unsettled(s.rows[s.grants[k].record.id]) && AllLaterGivenBack(s, k)
  {
    var p := Project(s);
    assert p.claims[k].id in p.rows;
    Lease.FenceMeaning(p, k);
    assert AllLaterGivenBack(s, k) == Lease.AllLaterGivenBack(p.claims, k) by {
      assert forall j :: 0 <= j < |s.grants| ==> p.claims[j] == ClaimOf(s.grants[j]);
    }
  }

  /** What a landed write knows: its record is current. */
  lemma LandedWrite(cfg: Config, s: State, k: int)
    requires LeaseInv(cfg, s) && RecordsAgree(s) && Holds(s, k) && Leased(s.rows, KeyOf(s.grants[k].record))
    ensures s.rows[s.grants[k].record.id].status == s.grants[k].record.status
    ensures AllLaterGivenBack(s, k)
  {
    FenceMeaning(cfg, s, k);
    assert RecordAgrees(s, k);
  }

  lemma NoneLaterSpentBefore(s: State, t: State, j: int)
    requires 0 <= j < |s.grants| <= |t.grants| && NoneLaterSpent(t, j)
    requires forall i :: 0 <= i < |s.grants| ==> t.grants[i].record == s.grants[i].record
    requires forall i :: 0 <= i < |s.grants| && s.grants[i].standing.Spent? ==> t.grants[i].standing.Spent?
    ensures NoneLaterSpent(s, j)
  {
    forall i | j < i < |s.grants| && s.grants[i].record.id == s.grants[j].record.id
      ensures !s.grants[i].standing.Spent?
    {
      assert t.grants[i].record.id == s.grants[i].record.id;
    }
  }

  lemma FinishAgrees(cfg: Config, s: State, k: nat, call: Call, now: Instant, j: int)
    requires LeaseInv(cfg, s) && RecordsAgree(s) && Holds(s, k) && 0 <= j < |s.grants|
    ensures RecordAgrees(AfterFinish(s, k, call, now), j)
  {
    var t := AfterFinish(s, k, call, now);
    assert RecordAgrees(s, j) && RecordAgrees(s, k);
    var r, g := s.grants[j].record, s.grants[k].record;
    if Holds(t, j) && NoneLaterSpent(t, j) {
      assert j != k && Holds(s, j);
      NoneLaterSpentBefore(s, t, j);
      if Leased(s.rows, KeyOf(g)) && g.id == r.id {
        LandedWrite(cfg, s, k);
        if k < j { assert false; }
        assert !t.grants[k].standing.Spent?;
      }
    }
  }

  lemma ClaimAgrees(cfg: Config, s: State, locked: set<Id>, pick: Pick, order: seq<Id>, j: int)
    requires RecordsAgree(s) && forall id <- order :: id in s.rows
    requires 0 <= j < |AfterClaim(cfg, s, locked, pick, order).grants|
    ensures RecordAgrees(AfterClaim(cfg, s, locked, pick, order), j)
  {
    var t := AfterClaim(cfg, s, locked, pick, order);
    if j < |s.grants| {
      assert RecordAgrees(s, j);
      if Holds(t, j) && NoneLaterSpent(t, j) { NoneLaterSpentBefore(s, t, j); }
    }
  }

  lemma AssignAgrees(s: State, claim: nat, entries: seq<Record>, ks: seq<nat>, j: int)
    requires RecordsAgree(s) && entries != [] && 0 <= j < |s.grants|
    ensures RecordAgrees(AfterAssign(s, claim, entries, ks), j)
  {
    var t := AfterAssign(s, claim, entries, ks);
    assert RecordAgrees(s, j);
    if Holds(t, j) && NoneLaterSpent(t, j) { NoneLaterSpentBefore(s, t, j); }
  }

  lemma StepRecordsAgree(cfg: Config, s: State, step: Step)
    requires LeaseInv(cfg, s) && RecordsAgree(s) && Enabled(cfg, s, step)
    ensures RecordsAgree(Apply(cfg, s, step))
  {
    var t := Apply(cfg, s, step);
    forall j | 0 <= j < |t.grants|
      ensures RecordAgrees(t, j)
    {
      match step
      case Claim(locked, pick, order) => ClaimAgrees(cfg, s, locked, pick, order, j);
      case Assign(claim, chunk, ks) => AssignAgrees(s, claim, Entries(cfg, chunk), ks, j);
      case Finish(k, call, now) => FinishAgrees(cfg, s, k, call, now, j);
      case _ =>
        assert RecordAgrees(s, j);
        if Holds(t, j) && NoneLaterSpent(t, j) { NoneLaterSpentBefore(s, t, j); }
    }
  }

  // ---------- ageing ----------

  /** A status moves pending to dead to sent or failed, and both ends are final. */
  predicate Onward(a: Status, b: Status) {
    a == b || a.Pending? || (a.Dead? && !b.Pending?)
  }

  /** How a row may have changed by a later time. */
  ghost predicate Aged(t: Table, at: Instant, u: Table, now: Instant) {
    at <= now && forall id <- t :: id in u && u[id].createdAt == t[id].createdAt && Onward(t[id].status, u[id].status)
  }

  lemma AgedTransitive(t: Table, at: Instant, u: Table, now: Instant, v: Table, later: Instant)
    requires Aged(t, at, u, now) && Aged(u, now, v, later)
    ensures Aged(t, at, v, later)
  {
  }

  /** A row that may no longer be sent never may again. */
  lemma ReplayableBefore(t: Table, at: Instant, u: Table, now: Instant, window: nat, id: Id)
    requires Aged(t, at, u, now) && id in t && Replayable(u[id], now, window)
    ensures Replayable(t[id], at, window)
  {
  }

  /** What a call does to the row it lands on. */
  lemma CallMovesOnward(cfg: Config, s: State, k: nat, call: Call, now: Instant)
    requires LeaseInv(cfg, s) && RecordsAgree(s) && Holds(s, k) && MayFinish(cfg, s.grants[k], call)
    ensures Aged(s.rows, s.clock, AfterFinish(s, k, call, now).rows, s.clock)
  {
    var g := s.grants[k].record;
    if Leased(s.rows, KeyOf(g)) {
      LandedWrite(cfg, s, k);
      if call.FailCall? && call.failure.Retry? && g.status.Dead? {
        assert g in call.rows;
      }
    }
  }

  lemma StepAged(cfg: Config, s: State, step: Step)
    requires LeaseInv(cfg, s) && RecordsAgree(s) && Enabled(cfg, s, step)
    ensures Aged(s.rows, s.clock, Apply(cfg, s, step).rows, Apply(cfg, s, step).clock)
  {
    if step.Finish? {
      CallMovesOnward(cfg, s, step.k, step.call, step.now);
    }
  }

  // ---------- the exhausted event ----------

  predicate Counted(s: State, id: Id) {
    var n := s.exhausted[id];
    if id !in s.rows then n == 0
    else match s.rows[id].status
      case Pending => n == 0
      case Dead => n == 1
      case Failed => n == 1
      case Sent => n <= 1
  }

  ghost predicate AllCounted(s: State) {
    forall id :: Counted(s, id)
  }

  /** A settlement emits the event exactly when it takes its row from pending to dead or failed. */
  lemma FinishExhausts(cfg: Config, s: State, k: nat, call: Call, now: Instant, id: Id)
    requires LeaseInv(cfg, s) && RecordsAgree(s) && Holds(s, k) && MayFinish(cfg, s.grants[k], call)
    ensures var t := AfterFinish(s, k, call, now);
      && (id in t.rows <==> id in s.rows)
      && t.exhausted[id] == s.exhausted[id] +
         (if id in s.rows && s.rows[id].status.Pending? && (t.rows[id].status.Dead? || t.rows[id].status.Failed?) then 1 else 0)
  {
    var g := s.grants[k].record;
    if Leased(s.rows, KeyOf(g)) {
      LandedWrite(cfg, s, k);
      if call.FailCall? && call.failure.Retry? && g.status.Dead? {
        assert g in call.rows;
      }
    }
  }

  lemma StepAllCounted(cfg: Config, s: State, step: Step)
    requires LeaseInv(cfg, s) && RecordsAgree(s) && AllCounted(s) && Enabled(cfg, s, step)
    ensures AllCounted(Apply(cfg, s, step))
  {
    var t := Apply(cfg, s, step);
    StepAged(cfg, s, step);
    forall id
      ensures Counted(t, id)
    {
      assert Counted(s, id);
      if step.Finish? { FinishExhausts(cfg, s, step.k, step.call, step.now, id); }
    }
  }

  // ---------- claims so far ----------

  ghost predicate LogSound(cfg: Config, log: ClaimLog) {
    && IsPick(log.table, cfg.request, log.at, log.locked, log.pick)
    && Answers(log.table, cfg.request, log.at, log.pick, log.order, log.records)
  }

  /** Every logged claim was sound, and the table has only aged since. */
  ghost predicate LogsSound(cfg: Config, s: State) {
    && (forall c :: 0 <= c < |s.claims| ==> LogSound(cfg, s.claims[c]))
    && (forall c :: 0 <= c < |s.claims| ==> Aged(s.claims[c].table, s.claims[c].at, s.rows, s.clock))
    && (forall c, d :: 0 <= c < d < |s.claims| ==>
          Aged(s.claims[c].table, s.claims[c].at, s.claims[d].table, s.claims[d].at))
  }

  predicate Unexpired(s: State, k: int) {
    Holds(s, k) && s.clock < s.grants[k].expiresAt
  }

  /** A grant comes from its claim, and while its lease runs no later claim took its row. */
  ghost predicate GrantLogged(cfg: Config, s: State, k: int)
    requires 0 <= k < |s.grants|
  {
    var g := s.grants[k];
    && g.claim < |s.claims| && g.record in s.claims[g.claim].records
    && g.expiresAt == s.claims[g.claim].at + cfg.request.lease
    && (Unexpired(s, k) ==> forall d :: g.claim < d < |s.claims| ==> g.record.id !in s.claims[d].order)
  }

  ghost predicate GrantsLogged(cfg: Config, s: State) {
    forall k :: 0 <= k < |s.grants| ==> GrantLogged(cfg, s, k)
  }

  lemma LogsAge(cfg: Config, s: State, t: State)
    requires LogsSound(cfg, s) && Aged(s.rows, s.clock, t.rows, t.clock) && t.claims == s.claims
    ensures LogsSound(cfg, t)
  {
    forall c | 0 <= c < |s.claims|
      ensures Aged(s.claims[c].table, s.claims[c].at, t.rows, t.clock)
    {
      AgedTransitive(s.claims[c].table, s.claims[c].at, s.rows, s.clock, t.rows, t.clock);
    }
  }

  lemma NewLogSound(cfg: Config, t: Table, now: Instant, locked: set<Id>, pick: Pick, order: seq<Id>)
    requires IsPick(t, cfg.request, now, locked, pick)
    requires Lists(order, DueOf(pick)) && InOrder(CreatedAt(t), order) && forall id <- order :: id in t
    ensures LogSound(cfg, ClaimLog(t, now, locked, pick, order, NewRecords(t, order, now, cfg.request.replayWindow)))
  {
  }

  lemma LogsGrow(cfg: Config, s: State, log: ClaimLog, t: State)
    requires LogsSound(cfg, s) && LogSound(cfg, log) && log.table == s.rows && log.at == s.clock
    requires Aged(s.rows, s.clock, t.rows, t.clock) && t.claims == s.claims + [log]
    ensures LogsSound(cfg, t)
  {
    LogsAge(cfg, s, t.(claims := s.claims));
    forall c | 0 <= c < |t.claims|
      ensures LogSound(cfg, t.claims[c]) && Aged(t.claims[c].table, t.claims[c].at, t.rows, t.clock)
    {
      assert c < |s.claims| ==> t.claims[c] == s.claims[c];
    }
    forall c, d | 0 <= c < d < |t.claims|
      ensures Aged(t.claims[c].table, t.claims[c].at, t.claims[d].table, t.claims[d].at)
    {
      assert t.claims[c] == s.claims[c] && (d < |s.claims| ==> t.claims[d] == s.claims[d]);
    }
  }

  lemma StepLogsSound(cfg: Config, s: State, step: Step)
    requires LeaseInv(cfg, s) && RecordsAgree(s) && LogsSound(cfg, s) && Enabled(cfg, s, step)
    ensures LogsSound(cfg, Apply(cfg, s, step))
  {
    StepAged(cfg, s, step);
    if step.Claim? {
      forall id | id in step.order
        ensures id in s.rows
      {
        ClaimedRow(cfg, s, step, id);
      }
      NewLogSound(cfg, s.rows, s.clock, step.locked, step.pick, step.order);
      var t := Apply(cfg, s, step);
      LogsGrow(cfg, s, t.claims[|s.claims|], t);
    } else {
      LogsAge(cfg, s, Apply(cfg, s, step));
    }
  }

  /** An unexpired row is not due. */
  lemma UnexpiredRow(cfg: Config, s: State, k: int)
    requires LeaseInv(cfg, s) && Unexpired(s, k)
    ensures var g := s.grants[k];
      && g.record.id in s.rows && Unsettled(s.rows[g.record.id]) && s.rows[g.record.id].attempts == g.record.attempts
      && s.rows[g.record.id].nextAttemptAt == Some(g.expiresAt)
  {
    assert Lease.Unexpired(Project(s), k);
    assert Lease.Guarded(Project(s), k);
  }

  lemma ClaimGrantsLogged(cfg: Config, s: State, locked: set<Id>, pick: Pick, order: seq<Id>, k: int)
    requires LeaseInv(cfg, s) && GrantsLogged(cfg, s)
    requires forall id <- order :: id in s.rows && Due(s.rows[id], s.clock, cfg.request.replayWindow)
    requires 0 <= k < |AfterClaim(cfg, s, locked, pick, order).grants|
    ensures GrantLogged(cfg, AfterClaim(cfg, s, locked, pick, order), k)
  {
    var t := AfterClaim(cfg, s, locked, pick, order);
    if k < |s.grants| {
      assert GrantLogged(cfg, s, k);
      if Unexpired(t, k) {
        UnexpiredRow(cfg, s, k);
      }
    } else {
      assert t.claims[|s.claims|].records[k - |s.grants|] == t.grants[k].record;
    }
  }

  lemma StepGrantsLogged(cfg: Config, s: State, step: Step)
    requires LeaseInv(cfg, s) && GrantsLogged(cfg, s) && Enabled(cfg, s, step)
    ensures GrantsLogged(cfg, Apply(cfg, s, step))
  {
    var t := Apply(cfg, s, step);
    if step.Claim? {
      forall id | id in step.order
        ensures id in s.rows && Due(s.rows[id], s.clock, cfg.request.replayWindow)
      {
        ClaimedRow(cfg, s, step, id);
      }
    }
    forall k | 0 <= k < |t.grants|
      ensures GrantLogged(cfg, t, k)
    {
      if step.Claim? {
        ClaimGrantsLogged(cfg, s, step.locked, step.pick, step.order, k);
      } else {
        assert GrantLogged(cfg, s, k);
      }
    }
  }

  // ---------- the invariant ----------

  ghost predicate Inv(cfg: Config, s: State) {
    LeaseInv(cfg, s) && RecordsAgree(s) && AllCounted(s) && LogsSound(cfg, s) && GrantsLogged(cfg, s)
  }

  lemma StepInv(cfg: Config, s: State, step: Step)
    requires Inv(cfg, s) && Enabled(cfg, s, step)
    ensures Inv(cfg, Apply(cfg, s, step))
  {
    StepLeaseInv(cfg, s, step);
    StepRecordsAgree(cfg, s, step);
    StepAllCounted(cfg, s, step);
    StepLogsSound(cfg, s, step);
    StepGrantsLogged(cfg, s, step);
  }

  lemma {:induction false} RunInv(cfg: Config, s: State, steps: seq<Step>)
    requires Inv(cfg, s) && ValidRun(cfg, s, steps)
    ensures Inv(cfg, Run(cfg, s, steps)) && Aged(s.rows, s.clock, Run(cfg, s, steps).rows, Run(cfg, s, steps).clock)
    decreases |steps|
  {
    if steps != [] {
      var t := Apply(cfg, s, steps[0]);
      StepInv(cfg, s, steps[0]);
      StepAged(cfg, s, steps[0]);
      RunInv(cfg, t, steps[1..]);
      AgedTransitive(s.rows, s.clock, t.rows, t.clock, Run(cfg, s, steps).rows, Run(cfg, s, steps).clock);
    }
  }

  lemma ReachableInv(cfg: Config, steps: seq<Step>)
    requires ValidRun(cfg, START, steps)
    ensures Inv(cfg, Run(cfg, START, steps))
  {
    RunInv(cfg, START, steps);
  }

  // ---------- the promises ----------

  /** The fence, over every run: tokens are unique, and a write lands exactly on the row its claim still owns. */
  lemma EmailFence(cfg: Config, steps: seq<Step>, k: int)
    requires ValidRun(cfg, START, steps) && Holds(Run(cfg, START, steps), k)
    ensures var s := Run(cfg, START, steps);
      && s.grants[k].record.id in s.rows
      && (Leased(s.rows, KeyOf(s.grants[k].record)) <==>
          Unsettled(s.rows[s.grants[k].record.id]) && AllLaterGivenBack(s, k))
      && forall j :: Holds(s, j) && KeyOf(s.grants[j].record) == KeyOf(s.grants[k].record) ==> j == k
  {
    ReachableInv(cfg, steps);
    var s := Run(cfg, START, steps);
    FenceMeaning(cfg, s, k);
    forall j | Holds(s, j) && KeyOf(s.grants[j].record) == KeyOf(s.grants[k].record)
      ensures j == k
    {
      if j < k { Lease.TokensAreUnique(Project(s), j, k); }
      if k < j { Lease.TokensAreUnique(Project(s), k, j); }
    }
  }

  lemma OneUnexpiredGrant(cfg: Config, s: State, j: int, k: int)
    requires LeaseInv(cfg, s) && Unexpired(s, j) && Unexpired(s, k) && s.grants[j].record.id == s.grants[k].record.id
    ensures j == k
  {
    var p := Project(s);
    assert Lease.Unexpired(p, j) && Lease.Unexpired(p, k);
    Lease.OneUnexpiredClaim(LeaseConfig(cfg), p, j, k);
  }

  /** No two workers hold an unexpired lease on one message. */
  lemma EmailMutualExclusion(cfg: Config, steps: seq<Step>, j: int, k: int)
    requires ValidRun(cfg, START, steps)
    requires var s := Run(cfg, START, steps);
      Unexpired(s, j) && Unexpired(s, k) && s.grants[j].record.id == s.grants[k].record.id
    ensures j == k
  {
    ReachableInv(cfg, steps);
    OneUnexpiredGrant(cfg, Run(cfg, START, steps), j, k);
  }

  /** From any reachable state, over any further run, a message's status only moves onward. */
  lemma StatusOnlyMovesOnward(cfg: Config, before: seq<Step>, after: seq<Step>, id: Id)
    requires ValidRun(cfg, START, before) && ValidRun(cfg, Run(cfg, START, before), after)
    requires id in Run(cfg, START, before).rows
    ensures var s := Run(cfg, START, before);
            var t := Run(cfg, s, after);
            id in t.rows && Onward(s.rows[id].status, t.rows[id].status)
  {
    ReachableInv(cfg, before);
    RunInv(cfg, Run(cfg, START, before), after);
  }

  /** The exhausted event of a message is emitted in the one step that takes it from pending to dead or failed. */
  lemma ExhaustedExactlyOnDeath(cfg: Config, s: State, step: Step, id: Id)
    requires Inv(cfg, s) && Enabled(cfg, s, step)
    ensures var t := Apply(cfg, s, step);
      t.exhausted[id] == s.exhausted[id] +
        (if id in s.rows && s.rows[id].status.Pending? && (t.rows[id].status.Dead? || t.rows[id].status.Failed?) then 1 else 0)
  {
    if step.Finish? {
      FinishExhausts(cfg, s, step.k, step.call, step.now, id);
    }
  }

  /** So over any run it is emitted once for a dead or failed message, and never twice. */
  lemma ExhaustedOnce(cfg: Config, steps: seq<Step>, id: Id)
    requires ValidRun(cfg, START, steps)
    ensures Counted(Run(cfg, START, steps), id)
  {
    ReachableInv(cfg, steps);
  }

  // ---------- statements over many rows ----------

  ghost function FinishAll(ks: seq<nat>, call: Call, now: Instant): seq<Step> {
    if ks == [] then [] else [Finish(ks[0], call, now)] + FinishAll(ks[1..], call, now)
  }

  function GrantRecords(s: State, ks: seq<nat>): (r: seq<Record>)
    requires forall i :: 0 <= i < |ks| ==> ks[i] < |s.grants|
    ensures |r| == |ks|
  {
    seq(|ks|, i requires 0 <= i < |ks| => s.grants[ks[i]].record)
  }

  lemma CallSplits(t: Table, first: LeaseKey, rest: set<LeaseKey>, call: Call, now: Instant)
    requires forall lease <- rest :: lease.id != first.id
    ensures CallRows(CallRows(t, {first}, call, now), rest, call, now) == CallRows(t, {first} + rest, call, now)
  {
    match call
    case FailCall(_, failure) =>
      StatementSplits(t, first, rest, (id: Id, row: Row) => FailedRow(row, failure, now));
    case SentCall(_, providerIds) =>
      StatementSplits(t, first, rest, (id: Id, row: Row) =>
        SentRow(row, if id in providerIds then Some(providerIds[id]) else None, now));
    case ReleaseCall(_, delay) =>
      StatementSplits(t, first, rest, (id: Id, row: Row) => ReleasedRow(row, now + delay * SECOND));
  }

  ghost predicate Together(cfg: Config, s: State, ks: seq<nat>, call: Call) {
    && (forall i :: 0 <= i < |ks| ==> Holds(s, ks[i]) && MayFinish(cfg, s.grants[ks[i]], call))
    && (forall i, j :: 0 <= i < j < |ks| ==> s.grants[ks[i]].record.id != s.grants[ks[j]].record.id)
  }

  lemma FirstSettled(cfg: Config, s: State, ks: seq<nat>, call: Call, now: Instant)
    requires Together(cfg, s, ks, call) && ks != []
    ensures var u, first, rest := AfterFinish(s, ks[0], call, now), s.grants[ks[0]].record, GrantRecords(s, ks[1..]);
      && Together(cfg, u, ks[1..], call) && GrantRecords(u, ks[1..]) == rest
      && GrantRecords(s, ks) == [first] + rest
      && (forall r <- rest :: r.id != first.id && Leased(u.rows, KeyOf(r)) == Leased(s.rows, KeyOf(r)))
  {
    var u, rest := AfterFinish(s, ks[0], call, now), GrantRecords(s, ks[1..]);
    forall i | 0 <= i < |ks[1..]|
      ensures Holds(u, ks[1..][i]) && u.grants[ks[1..][i]] == s.grants[ks[1..][i]]
    {
      assert ks[1..][i] == ks[i + 1];
    }
    assert forall i :: 0 <= i < |rest| ==> rest[i].id != s.grants[ks[0]].record.id;
  }

  lemma FinishFirst(cfg: Config, s: State, ks: seq<nat>, call: Call, now: Instant)
    requires Together(cfg, s, ks, call) && ks != [] && now <= s.clock
    requires ValidRun(cfg, AfterFinish(s, ks[0], call, now), FinishAll(ks[1..], call, now))
    ensures ValidRun(cfg, s, FinishAll(ks, call, now))
    ensures Run(cfg, s, FinishAll(ks, call, now)) == Run(cfg, AfterFinish(s, ks[0], call, now), FinishAll(ks[1..], call, now))
  {
    var steps := FinishAll(ks, call, now);
    assert steps[0] == Finish(ks[0], call, now) && steps[1..] == FinishAll(ks[1..], call, now);
  }

  /** One statement over several grants is a run that settles them one by one. */
  lemma {:induction false} CallIsRun(cfg: Config, s: State, ks: seq<nat>, call: Call, now: Instant)
    requires Together(cfg, s, ks, call) && now <= s.clock
    ensures ValidRun(cfg, s, FinishAll(ks, call, now))
    ensures var t := Run(cfg, s, FinishAll(ks, call, now));
            t.rows == CallRows(s.rows, Leases(GrantRecords(s, ks)), call, now)
    decreases |ks|
  {
    if ks == [] {
      assert CallRows(s.rows, {}, call, now) == s.rows;
      assert Leases(GrantRecords(s, ks)) == {};
    } else {
      var first, rest := s.grants[ks[0]].record, GrantRecords(s, ks[1..]);
      FirstSettled(cfg, s, ks, call, now);
      CallIsRun(cfg, AfterFinish(s, ks[0], call, now), ks[1..], call, now);
      FinishFirst(cfg, s, ks, call, now);
      assert Leases([first] + rest) == {KeyOf(first)} + Leases(rest);
      CallSplits(s.rows, KeyOf(first), Leases(rest), call, now);
    }
  }

  /** Its events are those of the one transaction. */
  lemma {:induction false} CallEventsAreRun(cfg: Config, s: State, ks: seq<nat>, call: Call, now: Instant, id: Id)
    requires Together(cfg, s, ks, call) && now <= s.clock && call.FailCall?
    ensures ValidRun(cfg, s, FinishAll(ks, call, now))
    ensures Run(cfg, s, FinishAll(ks, call, now)).exhausted[id] ==
            s.exhausted[id] + (if ExhaustedIn(s.rows, GrantRecords(s, ks), call.failure, id) then 1 else 0)
    decreases |ks|
  {
    if ks != [] {
      var u := AfterFinish(s, ks[0], call, now);
      FirstSettled(cfg, s, ks, call, now);
      CallEventsAreRun(cfg, u, ks[1..], call, now, id);
      FinishFirst(cfg, s, ks, call, now);
      ExhaustedSplits(s.rows, u.rows, s.grants[ks[0]].record, GrantRecords(s, ks[1..]), call.failure, id);
    }
  }

  lemma ExhaustedSplits(t: Table, u: Table, first: Record, rest: seq<Record>, failure: Failure, id: Id)
    requires forall r <- rest :: r.id != first.id && Leased(u, KeyOf(r)) == Leased(t, KeyOf(r))
    ensures ExhaustedIn(t, [first] + rest, failure, id) <==>
            (first.id == id && Leased(t, KeyOf(first)) && Exhausts(first, failure)) || ExhaustedIn(u, rest, failure, id)
    ensures ExhaustedIn(u, rest, failure, id) ==> first.id != id
  {
    assert first in [first] + rest;
  }

  /** Whatever the provider answers, a worker that handed over its entries makes only calls the system allows. */
  method FinishingCalls(cfg: Config, claimed: seq<Record>, held: bool, result: BatchResult, deadRetry: nat, sample: real, ghost s: State)
    returns (calls: seq<Call>)
    requires 0.0 <= sample < 1.0
    requires held ==> forall k :: Holds(s, k) && s.grants[k].record in Entries(cfg, claimed) ==> s.grants[k].stage.Submitted?
    ensures multiset(RowsOf(calls)) == multiset(claimed)
    ensures forall call <- calls, k :: Holds(s, k) && s.grants[k].record in call.rows && s.grants[k].record in claimed ==>
              Enabled(cfg, s, Finish(k, call, s.clock))
  {
    var under;
    calls, under := SendChunk(claimed, Renders(cfg), held, result, deadRetry, sample);
    RenderedMembers(claimed, Renders(cfg), |claimed|);
    assert claimed[..|claimed|] == claimed;
    forall call, k | call in calls && Holds(s, k) && s.grants[k].record in call.rows && s.grants[k].record in claimed
      ensures Enabled(cfg, s, Finish(k, call, s.clock))
    {
      assert CallAllowed(call, s.grants[k].record, Renders(cfg), under.Some?);
    }
  }
}
