/**
 The lease protocol shared by the outbox and the email table.

 A claim adds one to `attempts` and pushes `nextAttemptAt` past the lease.  Every later write
 names the pair (id, attempts) it was given and lands only while that pair still matches an
 unsettled row.  A release subtracts one again, so `attempts` is not a growing token: this module
 proves which claim a matching pair belongs to, over every run, crashes and late workers included.

 Times are ticks of the database clock.
 */
module Lease {
  import opened Wrappers
  import opened Ordering

  /** The columns of a row that the lease protocol reads and writes. */
  datatype Columns = Columns(attempts: int, settled: bool, nextAttemptAt: Option<Instant>)

  /** Held: its worker may still write.  GivenBack: a release landed.  Spent: anything else. */
  datatype Standing = Held | GivenBack | Spent

  datatype Claim = Claim(id: Id, attempts: int, expiresAt: Instant, standing: Standing)

  datatype State = State(rows: map<Id, Columns>, claims: seq<Claim>, clock: Instant)

  /** `lease` is what claims use, `requeueLease` what the operator's requeue compares with. */
  datatype Config = Config(lease: nat, requeueLease: int)

  /** What a settling statement does to the row when its fence matches. */
  datatype Write = Keep(settled: bool, next: Option<Instant>) | GiveBack(due: Instant)

  datatype Step =
    | Tick(to: Instant)
    | Insert(id: Id)
    | Take(ids: seq<Id>)
    | Use(k: nat, write: Write)
    | Abandon(k: nat)
    | Requeue(moved: set<Id>, due: Instant)

  // ---------- the shared column predicates and updates ----------

  predicate IsDue(next: Option<Instant>, now: Instant) {
    next.None? || next.value <= now
  }

  predicate IsDeadDue(next: Option<Instant>, now: Instant) {
    next.Some? && next.value <= now
  }

  function Claimed(row: Columns, now: Instant, lease: nat): Columns {
    row.(attempts := row.attempts + 1, nextAttemptAt := Some(now + lease))
  }

  function Released(row: Columns, next: Instant): Columns {
    row.(attempts := row.attempts - 1, nextAttemptAt := Some(next))
  }

  /** The fence: the claim's pair still matches an unsettled row. */
  predicate Fence(rows: map<Id, Columns>, claim: Claim) {
    claim.id in rows && rows[claim.id].attempts == claim.attempts && !rows[claim.id].settled
  }

  const DEAD_SHARE_OF_CLAIM := 4

  /** Dead rows may take a quarter of a claim, rounded up. */
  function DeadShareOf(limit: nat): (r: nat)
    ensures DEAD_SHARE_OF_CLAIM * r >= limit > DEAD_SHARE_OF_CLAIM * (r - 1)
  {
    (limit + DEAD_SHARE_OF_CLAIM - 1) / DEAD_SHARE_OF_CLAIM
  }

  // ---------- steps ----------

  predicate Holds(s: State, k: int) {
    0 <= k < |s.claims| && s.claims[k].standing.Held?
  }

  predicate Enabled(cfg: Config, s: State, step: Step) {
    match step
    case Tick(to) => s.clock <= to
    case Insert(id) => id !in s.rows
    case Take(ids) =>
      && Distinct(ids)
      && forall id <- ids :: id in s.rows && !s.rows[id].settled && IsDue(s.rows[id].nextAttemptAt, s.clock)
    case Use(k, _) => Holds(s, k)
    case Abandon(k) => Holds(s, k)
    case Requeue(moved, _) =>
      forall id <- moved ::
        id in s.rows && s.rows[id].nextAttemptAt.Some? && s.rows[id].nextAttemptAt.value > s.clock + cfg.requeueLease
  }

  function Written(row: Columns, write: Write): Columns {
    match write
    case Keep(settled, next) => row.(settled := settled, nextAttemptAt := next)
    case GiveBack(due) => Released(row, due)
  }

  function NewClaims(s: State, ids: seq<Id>, lease: nat): (r: seq<Claim>)
    requires forall id <- ids :: id in s.rows
    ensures |r| == |ids|
  {
    seq(|ids|, i requires 0 <= i < |ids| => Claim(ids[i], s.rows[ids[i]].attempts + 1, s.clock + lease, Held))
  }

  function Apply(cfg: Config, s: State, step: Step): State
    requires Enabled(cfg, s, step)
  {
    match step
    case Tick(to) => s.(clock := to)
    case Insert(id) => s.(rows := s.rows[id := Columns(0, false, None)])
    case Take(ids) =>
      s.(rows := map id | id in s.rows :: if id in ids then Claimed(s.rows[id], s.clock, cfg.lease) else s.rows[id],
         claims := s.claims + NewClaims(s, ids, cfg.lease))
    case Use(k, write) =>
      var c := s.claims[k];
      if Fence(s.rows, c) then
        s.(rows := s.rows[c.id := Written(s.rows[c.id], write)],
           claims := s.claims[k := c.(standing := if write.GiveBack? then GivenBack else Spent)])
      else
        s.(claims := s.claims[k := c.(standing := Spent)])
    case Abandon(k) => s.(claims := s.claims[k := s.claims[k].(standing := Spent)])
    case Requeue(moved, due) =>
      s.(rows := map id | id in s.rows :: if id in moved then s.rows[id].(nextAttemptAt := Some(due)) else s.rows[id])
  }

  const START := State(map[], [], 0)

  ghost predicate ValidRun(cfg: Config, s: State, steps: seq<Step>)
    decreases |steps|
  {
    steps == [] || (Enabled(cfg, s, steps[0]) && ValidRun(cfg, Apply(cfg, s, steps[0]), steps[1..]))
  }

  ghost function Run(cfg: Config, s: State, steps: seq<Step>): State
    requires ValidRun(cfg, s, steps)
    decreases |steps|
  {
    if steps == [] then s else Run(cfg, Apply(cfg, s, steps[0]), steps[1..])
  }

  // ---------- how many later claims of a row were not given back ----------

  ghost function Kept(claims: seq<Claim>, id: Id, from: nat): nat
    requires from <= |claims|
    decreases |claims| - from
  {
    if from == |claims| then 0
    else (if claims[from].id == id && !claims[from].standing.GivenBack? then 1 else 0) + Kept(claims, id, from + 1)
  }

  ghost predicate AllLaterGivenBack(claims: seq<Claim>, k: int)
    requires 0 <= k < |claims|
  {
    forall j :: k < j < |claims| && claims[j].id == claims[k].id ==> claims[j].standing.GivenBack?
  }

  lemma {:induction false} KeptAppend(claims: seq<Claim>, c: Claim, id: Id, from: nat)
    requires from <= |claims|
    ensures Kept(claims + [c], id, from)
         == Kept(claims, id, from) + (if c.id == id && !c.standing.GivenBack? then 1 else 0)
    decreases |claims| - from
  {
    if from < |claims| {
      KeptAppend(claims, c, id, from + 1);
    } else {
      assert Kept(claims + [c], id, from + 1) == 0;
    }
  }

  lemma {:induction false} KeptUpdate(claims: seq<Claim>, j: nat, c: Claim, id: Id, from: nat)
    requires j < |claims| && from <= |claims| && c.id == claims[j].id
    ensures Kept(claims[j := c], id, from)
         == Kept(claims, id, from)
            + (if from <= j && c.id == id && !c.standing.GivenBack? then 1 else 0)
            - (if from <= j && c.id == id && !claims[j].standing.GivenBack? then 1 else 0)
    decreases |claims| - from
  {
    if from < |claims| {
      KeptUpdate(claims, j, c, id, from + 1);
    }
  }

  lemma {:induction false} KeptZero(claims: seq<Claim>, id: Id, from: nat)
    requires from <= |claims|
    ensures Kept(claims, id, from) == 0 <==>
            forall j :: from <= j < |claims| && claims[j].id == id ==> claims[j].standing.GivenBack?
    decreases |claims| - from
  {
    if from < |claims| {
      KeptZero(claims, id, from + 1);
    }
  }

  // ---------- the fence invariant ----------

  /** A held claim is exactly as far below its row as there are later claims not given back. */
  ghost predicate Aligned(rows: map<Id, Columns>, claims: seq<Claim>, k: int)
    requires 0 <= k < |claims|
  {
    var c := claims[k];
    c.id in rows && rows[c.id].attempts == c.attempts + Kept(claims, c.id, k + 1)
  }

  ghost predicate Stacked(s: State) {
    && (forall k :: 0 <= k < |s.claims| ==> s.claims[k].id in s.rows)
    && (forall k :: Holds(s, k) ==> Aligned(s.rows, s.claims, k))
  }

  lemma TakeOneStacked(cfg: Config, s: State, id: Id)
    requires Stacked(s) && Enabled(cfg, s, Take([id]))
    ensures Stacked(Apply(cfg, s, Take([id])))
  {
    var t := Apply(cfg, s, Take([id]));
    var c := NewClaims(s, [id], cfg.lease)[0];
    assert t.claims == s.claims + [c];
    forall k | Holds(t, k)
      ensures Aligned(t.rows, t.claims, k)
    {
      if k < |s.claims| {
        assert Holds(s, k) && Aligned(s.rows, s.claims, k);
        KeptAppend(s.claims, c, s.claims[k].id, k + 1);
      }
    }
  }

  /** Taking several rows at once is taking them one after the other at the same instant. */
  lemma TakeSplits(cfg: Config, s: State, ids: seq<Id>)
    requires ids != [] && Enabled(cfg, s, Take(ids))
    ensures Enabled(cfg, s, Take(ids[..|ids| - 1]))
    ensures var t := Apply(cfg, s, Take(ids[..|ids| - 1]));
            Enabled(cfg, t, Take([ids[|ids| - 1]])) && Apply(cfg, t, Take([ids[|ids| - 1]])) == Apply(cfg, s, Take(ids))
  {
    var n := |ids| - 1;
    var head, last := ids[..n], ids[n];
    assert ids == head + [last];
    assert forall id <- head :: id in ids;
    var t := Apply(cfg, s, Take(head));
    assert t.rows[last] == s.rows[last];
    var u, v := Apply(cfg, t, Take([last])), Apply(cfg, s, Take(ids));
    assert u.rows == v.rows;
    assert u.claims == v.claims;
  }

  lemma {:induction false} TakeStacked(cfg: Config, s: State, ids: seq<Id>)
    requires Stacked(s) && Enabled(cfg, s, Take(ids))
    ensures Stacked(Apply(cfg, s, Take(ids)))
    decreases |ids|
  {
    if ids == [] {
      assert Apply(cfg, s, Take(ids)) == s;
    } else {
      TakeSplits(cfg, s, ids);
      TakeStacked(cfg, s, ids[..|ids| - 1]);
      TakeOneStacked(cfg, Apply(cfg, s, Take(ids[..|ids| - 1])), ids[|ids| - 1]);
    }
  }

  lemma UseAligned(cfg: Config, s: State, k: nat, write: Write, j: nat)
    requires Stacked(s) && Enabled(cfg, s, Use(k, write)) && Holds(s, j) && j != k
    ensures var t := Apply(cfg, s, Use(k, write)); Aligned(t.rows, t.claims, j)
  {
    var t := Apply(cfg, s, Use(k, write));
    var c := s.claims[k];
    assert Aligned(s.rows, s.claims, j) && Aligned(s.rows, s.claims, k);
    KeptUpdate(s.claims, k, t.claims[k], s.claims[j].id, j + 1);
    if Fence(s.rows, c) && s.claims[j].id == c.id && k < j {
      KeptZero(s.claims, c.id, k + 1);
      assert false;
    }
  }

  lemma UseStacked(cfg: Config, s: State, k: nat, write: Write)
    requires Stacked(s) && Enabled(cfg, s, Use(k, write))
    ensures Stacked(Apply(cfg, s, Use(k, write)))
  {
    var t := Apply(cfg, s, Use(k, write));
    forall j | Holds(t, j)
      ensures Aligned(t.rows, t.claims, j)
    {
      UseAligned(cfg, s, k, write, j);
    }
  }

  lemma StepStacked(cfg: Config, s: State, step: Step)
    requires Stacked(s) && Enabled(cfg, s, step)
    ensures Stacked(Apply(cfg, s, step))
  {
    var t := Apply(cfg, s, step);
    match step
    case Take(ids) => TakeStacked(cfg, s, ids);
    case Use(k, write) => UseStacked(cfg, s, k, write);
    case Abandon(k) =>
      forall j | Holds(t, j)
        ensures Aligned(t.rows, t.claims, j)
      {
        assert Holds(s, j) && Aligned(s.rows, s.claims, j);
        KeptUpdate(s.claims, k, t.claims[k], s.claims[j].id, j + 1);
      }
    case _ =>
      forall k | Holds(t, k)
        ensures Aligned(t.rows, t.claims, k)
      {
        assert Holds(s, k) && Aligned(s.rows, s.claims, k);
      }
  }

  lemma {:induction false} RunStacked(cfg: Config, s: State, steps: seq<Step>)
    requires Stacked(s) && ValidRun(cfg, s, steps)
    ensures Stacked(Run(cfg, s, steps))
    decreases |steps|
  {
    if steps != [] {
      StepStacked(cfg, s, steps[0]);
      RunStacked(cfg, Apply(cfg, s, steps[0]), steps[1..]);
    }
  }

  /** No two outstanding claims of a row carry the same token, although releases lower it. */
  lemma TokensAreUnique(s: State, j: nat, k: nat)
    requires Stacked(s) && Holds(s, j) && Holds(s, k) && j < k && s.claims[j].id == s.claims[k].id
    ensures s.claims[j].attempts < s.claims[k].attempts
  {
    assert Aligned(s.rows, s.claims, j) && Aligned(s.rows, s.claims, k);
    KeptDrop(s.claims, s.claims[k].id, j + 1, k);
  }

  lemma {:induction false} KeptDrop(claims: seq<Claim>, id: Id, from: nat, k: nat)
    requires from <= k < |claims| && claims[k].id == id && !claims[k].standing.GivenBack?
    ensures Kept(claims, id, from) > Kept(claims, id, k + 1)
    decreases k - from
  {
    if from < k {
      KeptDrop(claims, id, from + 1, k);
    }
  }

  /** A worker's write lands exactly when the row is unsettled and every later claim was given back. */
  lemma FenceMeaning(s: State, k: nat)
    requires Stacked(s) && Holds(s, k)
    ensures Fence(s.rows, s.claims[k]) <==> !s.rows[s.claims[k].id].settled && AllLaterGivenBack(s.claims, k)
  {
    assert Aligned(s.rows, s.claims, k);
    KeptZero(s.claims, s.claims[k].id, k + 1);
  }

  /** The fence theorem, over every run from the empty table. */
  lemma FenceTheorem(cfg: Config, steps: seq<Step>)
    requires ValidRun(cfg, START, steps)
    ensures var s := Run(cfg, START, steps);
      && (forall j, k :: Holds(s, j) && Holds(s, k) && j != k && s.claims[j].id == s.claims[k].id ==>
            s.claims[j].attempts != s.claims[k].attempts)
      && (forall k :: Holds(s, k) ==>
            (Fence(s.rows, s.claims[k]) <==>
             s.claims[k].id in s.rows && !s.rows[s.claims[k].id].settled && AllLaterGivenBack(s.claims, k)))
  {
    RunStacked(cfg, START, steps);
    var s := Run(cfg, START, steps);
    forall j, k | Holds(s, j) && Holds(s, k) && j != k && s.claims[j].id == s.claims[k].id
      ensures s.claims[j].attempts != s.claims[k].attempts
    {
      if j < k { TokensAreUnique(s, j, k); } else { TokensAreUnique(s, k, j); }
    }
    forall k | Holds(s, k)
      ensures Fence(s.rows, s.claims[k]) <==>
              s.claims[k].id in s.rows && !s.rows[s.claims[k].id].settled && AllLaterGivenBack(s.claims, k)
    {
      FenceMeaning(s, k);
    }
  }

  // ---------- mutual exclusion ----------

  predicate Unexpired(s: State, k: int) {
    Holds(s, k) && s.clock < s.claims[k].expiresAt
  }

  /** While a held claim's lease runs, its row is exactly as that claim left it. */
  ghost predicate Guarded(s: State, k: int)
    requires 0 <= k < |s.claims|
  {
    var c := s.claims[k];
    c.id in s.rows && s.rows[c.id] == Columns(c.attempts, false, Some(c.expiresAt))
  }

  ghost predicate Exclusive(cfg: Config, s: State) {
    && (forall k :: Unexpired(s, k) ==> Guarded(s, k))
    && (forall k :: 0 <= k < |s.claims| ==> s.claims[k].expiresAt <= s.clock + cfg.lease)
  }

  lemma StepExclusive(cfg: Config, s: State, step: Step)
    requires cfg.lease <= cfg.requeueLease
    requires Stacked(s) && Exclusive(cfg, s) && Enabled(cfg, s, step)
    ensures Exclusive(cfg, Apply(cfg, s, step))
  {
    var t := Apply(cfg, s, step);
    forall k | Unexpired(t, k)
      ensures Guarded(t, k)
    {
      match step
      case Take(ids) =>
        if k < |s.claims| {
          assert Unexpired(s, k);
          assert t.claims[k].id !in ids;
        }
      case Use(j, write) =>
        assert Unexpired(s, k) && j != k;
        if Fence(s.rows, s.claims[j]) && s.claims[j].id == s.claims[k].id {
          if j < k { TokensAreUnique(s, j, k); } else { TokensAreUnique(s, k, j); }
          assert false;
        }
      case Tick(_) => assert Unexpired(s, k);
      case Insert(_) => assert Unexpired(s, k);
      case Abandon(_) => assert Unexpired(s, k);
      case Requeue(_, _) => assert Unexpired(s, k);
    }
  }

  lemma {:induction false} RunExclusive(cfg: Config, s: State, steps: seq<Step>)
    requires cfg.lease <= cfg.requeueLease
    requires Stacked(s) && Exclusive(cfg, s) && ValidRun(cfg, s, steps)
    ensures Exclusive(cfg, Run(cfg, s, steps))
    decreases |steps|
  {
    if steps != [] {
      StepStacked(cfg, s, steps[0]);
      StepExclusive(cfg, s, steps[0]);
      RunExclusive(cfg, Apply(cfg, s, steps[0]), steps[1..]);
    }
  }

  /** At any database time at most one outstanding claim of a row is unexpired. */
  lemma OneUnexpiredClaim(cfg: Config, s: State, j: nat, k: nat)
    requires Stacked(s) && Exclusive(cfg, s)
    requires Unexpired(s, j) && Unexpired(s, k) && s.claims[j].id == s.claims[k].id
    ensures j == k
  {
    assert Guarded(s, j) && Guarded(s, k);
    if j < k {
      TokensAreUnique(s, j, k);
    } else if k < j {
      TokensAreUnique(s, k, j);
    }
  }

  lemma MutualExclusion(cfg: Config, steps: seq<Step>, j: nat, k: nat)
    requires cfg.lease <= cfg.requeueLease && ValidRun(cfg, START, steps)
    requires var s := Run(cfg, START, steps); Unexpired(s, j) && Unexpired(s, k) && s.claims[j].id == s.claims[k].id
    ensures j == k
  {
    RunStacked(cfg, START, steps);
    RunExclusive(cfg, START, steps);
    OneUnexpiredClaim(cfg, Run(cfg, START, steps), j, k);
  }
}
