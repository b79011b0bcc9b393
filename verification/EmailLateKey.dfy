/**
 Batch keys written after the lease ran out: exactly when such a write lets a message go out under two
 keys, and a run in which it does, because a release made the late worker's old token match again.
 */
module EmailLateKey {
  import opened Wrappers
  import opened Ordering
  import Lease
  import opened EmailQueue
  import opened EmailWorker
  import opened EmailBatch
  import opened EmailSystem
  import opened EmailResend

  // ---------- exactly when a late key is harmless ----------

  /** Sends that share a message share their key. */
  ghost predicate SharedKeys(s: State) {
    forall i, j, id :: 0 <= i < j < |s.sends| && id in s.sends[i].order && id in s.sends[j].order ==>
      s.sends[i].key == s.sends[j].key
  }

  ghost predicate SentUnder(sends: seq<Send>, key: BatchKey, id: Id) {
    exists i :: 0 <= i < |sends| && sends[i].key == key && id in sends[i].order
  }

  /** Every key in the table has been sent with the message that carries it. */
  ghost predicate KeysSent(s: State) {
    forall id :: id in s.rows && s.rows[id].batchKey.Some? ==> SentUnder(s.sends, s.rows[id].batchKey.value, id)
  }

  lemma SentUnderMore(sends: seq<Send>, send: Send, key: BatchKey, id: Id)
    requires SentUnder(sends, key, id) || (send.key == key && id in send.order)
    ensures SentUnder(sends + [send], key, id)
  {
    if SentUnder(sends, key, id) {
      var i :| 0 <= i < |sends| && sends[i].key == key && id in sends[i].order;
      assert (sends + [send])[i] == sends[i];
    } else {
      assert (sends + [send])[|sends|] == send;
    }
  }

  lemma AssignKeysSent(cfg: Config, s: State, claim: nat, chunk: seq<Record>, ks: seq<nat>)
    requires Inv(cfg, s) && KeyInv(cfg, s) && KeysSent(s) && MayAssign(cfg, s, claim, chunk, ks) && InTime(s, ks)
    ensures KeysSent(AfterAssign(s, claim, Entries(cfg, chunk), ks))
  {
    var entries := Entries(cfg, chunk);
    var key, t := ChunkBatchKey(entries), AfterAssign(s, claim, entries, ks);
    EntriesAreCurrent(cfg, s, claim, chunk, ks);
    AssignWrites(s.rows, entries, key);
    IdSeqLists(entries);
    var send := Send(key, IdSeq(entries), claim);
    forall id | id in t.rows && t.rows[id].batchKey.Some?
      ensures SentUnder(t.sends, t.rows[id].batchKey.value, id)
    {
      SentUnderMore(s.sends, send, t.rows[id].batchKey.value, id);
    }
  }

  lemma StepKeysSent(cfg: Config, s: State, step: Step)
    requires Inv(cfg, s) && KeyInv(cfg, s) && KeysSent(s) && Enabled(cfg, s, step) && Timely(s, step)
    ensures KeysSent(Apply(cfg, s, step))
  {
    if step.Assign? {
      AssignKeysSent(cfg, s, step.claim, step.chunk, step.ks);
    } else {
      OtherSameKeys(cfg, s, step);
    }
  }

  lemma {:induction false} RunKeysSent(cfg: Config, s: State, steps: seq<Step>)
    requires Inv(cfg, s) && KeyInv(cfg, s) && KeysSent(s) && TimelyRun(cfg, s, steps)
    ensures ValidRun(cfg, s, steps) && KeysSent(Run(cfg, s, steps))
    decreases |steps|
  {
    TimelyIsValid(cfg, s, steps);
    if steps != [] {
      StepKeysSent(cfg, s, steps[0]);
      StepInv(cfg, s, steps[0]);
      StepKeyInv(cfg, s, steps[0]);
      RunKeysSent(cfg, Apply(cfg, s, steps[0]), steps[1..]);
    }
  }

  /** No entry's row carries a key other than the one about to be written. */
  ghost predicate NoOtherKey(s: State, entries: seq<Record>)
    requires entries != []
  {
    forall r <- entries :: r.id in s.rows && s.rows[r.id].batchKey.Some? ==> s.rows[r.id].batchKey == Some(ChunkBatchKey(entries))
  }

  lemma KeysAreShared(cfg: Config, s: State)
    requires KeyInv(cfg, s)
    ensures SharedKeys(s)
    ensures forall i, id :: 0 <= i < |s.sends| && id in s.sends[i].order ==> Holder(s.rows, s.sends[i].key, id)
  {
    forall i, id | 0 <= i < |s.sends| && id in s.sends[i].order
      ensures Holder(s.rows, s.sends[i].key, id)
    {
      assert SendSound(cfg, s, s.sends[i]);
    }
  }

  /** One more send under `key` for `entries`. */
  lemma OneMoreSend(s: State, t: State, send: Send, key: BatchKey, entries: seq<Record>)
    requires SharedKeys(s) && KeysSent(s) && entries != [] && Ascending(entries) && key == ChunkBatchKey(entries)
    requires forall i, id :: 0 <= i < |s.sends| && id in s.sends[i].order ==> Holder(s.rows, s.sends[i].key, id)
    requires send == Send(key, IdSeq(entries), send.claim) && t.sends == s.sends + [send]
    ensures SharedKeys(t) <==> NoOtherKey(s, entries)
  {
    IdSeqLists(entries);
    if !NoOtherKey(s, entries) {
      var r :| r in entries && r.id in s.rows && s.rows[r.id].batchKey.Some? && s.rows[r.id].batchKey != Some(key);
      assert SentUnder(s.sends, s.rows[r.id].batchKey.value, r.id);
      var i :| 0 <= i < |s.sends| && s.sends[i].key == s.rows[r.id].batchKey.value && r.id in s.sends[i].order;
      assert t.sends[i] == s.sends[i] && t.sends[|s.sends|] == send;
      assert r.id in send.order;
    } else {
      forall i, j, id | 0 <= i < j < |t.sends| && id in t.sends[i].order && id in t.sends[j].order
        ensures t.sends[i].key == t.sends[j].key
      {
        assert t.sends[i] == s.sends[i];
        if j == |s.sends| {
          assert id in IdsOf(entries);
          var r :| r in entries && r.id == id;
        }
      }
    }
  }

  ghost predicate SendsClaimed(s: State) {
    forall i :: 0 <= i < |s.sends| ==> s.sends[i].claim < |s.claims|
  }

  /** A later send of a batch carries the earlier one's messages that may still be sent, and no other. */
  ghost predicate SameRows(cfg: Config, s: State)
    requires SendsClaimed(s)
  {
    forall i, j :: 0 <= i < j < |s.sends| ==> Resends(cfg, s, s.sends[i], s.sends[j])
  }

  /** If the send came from a later claim and under the same key, that claim could still send every entry. */
  ghost predicate StillThere(cfg: Config, s: State, claim: nat, entries: seq<Record>, send: Send)
    requires entries != [] && send.claim < |s.claims|
  {
    send.key == ChunkBatchKey(entries) && claim < send.claim ==>
      forall id <- IdsOf(entries) :: StillSendable(cfg, s.claims[send.claim], id)
  }

  /** No entry had left the replay window, or was settled, at a later claim that has sent under its key. */
  ghost predicate NoneDroppedOut(cfg: Config, s: State, claim: nat, entries: seq<Record>)
    requires entries != [] && SendsClaimed(s)
  {
    forall i :: 0 <= i < |s.sends| ==> StillThere(cfg, s, claim, entries, s.sends[i])
  }

  lemma ClaimedIsSendable(cfg: Config, log: ClaimLog, id: Id)
    requires LogSound(cfg, log) && id in log.order
    ensures StillSendable(cfg, log, id)
  {
    PickIsDue(log.table, cfg.request, log.at, log.locked, log.pick, id);
  }

  /** The messages a chunk sends: of its key's batch exactly those its claim could still send. */
  lemma EntriesAreSendable(cfg: Config, s: State, claim: nat, chunk: seq<Record>)
    requires Inv(cfg, s) && KeyInv(cfg, s) && claim < |s.claims| && ChunkOf(s.claims[claim].records, chunk) && Entries(cfg, chunk) != []
    ensures var entries := Entries(cfg, chunk);
            forall id :: id in IdsOf(entries) <==> id in ChunkBatchKey(entries).ids && StillSendable(cfg, s.claims[claim], id)
  {
    var entries, log := Entries(cfg, chunk), s.claims[claim];
    assert LogSound(cfg, log);
    EntriesOfChunk(cfg, log, chunk);
    AnswerFacts(log.table, cfg.request, log.at, log.pick, log.order, log.records);
    if entries[0].batchKey.Some? {
      KeyedEntries(cfg, s, claim, chunk);
      SendableOfSealed(cfg, log, ChunkBatchKey(entries));
    } else {
      forall r | r in entries
        ensures StillSendable(cfg, log, r.id)
      {
        assert r.id in IdsOf(log.records);
        ClaimedIsSendable(cfg, log, r.id);
      }
    }
  }

  /** What an earlier send under the key carried: its batch, but for what its claim could no longer send. */
  lemma EarlierCarries(cfg: Config, s: State, send: Send, id: Id)
    requires Inv(cfg, s) && KeyInv(cfg, s) && SendSound(cfg, s, send) && id in send.key.ids
    ensures id in send.order <==> StillSendable(cfg, s.claims[send.claim], id)
  {
    var log := s.claims[send.claim];
    assert LogSound(cfg, log);
    if Lists(send.order, send.key.ids) {
      assert id in send.order;
      ClaimedIsSendable(cfg, log, id);
    } else {
      SendersKeyIsSealed(cfg, s, send);
      SendableOfSealed(cfg, log, send.key);
    }
  }

  /** What a claim could send of a batch, every earlier claim that sent it could. */
  lemma EarlierCouldSend(cfg: Config, s: State, send: Send, claim: nat, id: Id)
    requires Inv(cfg, s) && KeyInv(cfg, s) && SendSound(cfg, s, send) && send.claim <= claim < |s.claims|
    requires id in send.key.ids && StillSendable(cfg, s.claims[claim], id)
    ensures id in send.order
  {
    var earlier, later := s.claims[send.claim], s.claims[claim];
    if !Lists(send.order, send.key.ids) {
      SendersKeyIsSealed(cfg, s, send);
      assert Holder(earlier.table, send.key, id);
      LogsAged(cfg, s, send.claim, claim);
      if earlier != later { ReplayableBefore(earlier.table, earlier.at, later.table, later.at, cfg.request.replayWindow, id); }
      EarlierCarries(cfg, s, send, id);
    }
  }

  lemma EntryCarried(cfg: Config, s: State, claim: nat, a: Send, id: Id)
    requires Inv(cfg, s) && KeyInv(cfg, s) && claim < |s.claims| && SendSound(cfg, s, a)
    requires id in a.key.ids && StillSendable(cfg, s.claims[claim], id)
    ensures id in a.order <==> (claim < a.claim ==> StillSendable(cfg, s.claims[a.claim], id))
  {
    EarlierCarries(cfg, s, a, id);
    if a.claim <= claim { EarlierCouldSend(cfg, s, a, claim, id); }
  }

  /** A chunk of what is still sendable of a batch resends an earlier send exactly when that had all of it. */
  lemma ResendsIfCarried(cfg: Config, s: State, ids: set<Id>, a: Send, b: Send)
    requires b.claim < |s.claims| && b.key == a.key && forall id <- a.order :: id in a.key.ids
    requires forall id :: id in ids <==> id in a.key.ids && StillSendable(cfg, s.claims[b.claim], id)
    requires forall id :: id in b.order <==> id in ids
    ensures Resends(cfg, s, a, b) <==> forall id <- ids :: id in a.order
  {
  }

  /** An earlier send under the key has all entries exactly when none had dropped out, if its claim came later. */
  lemma LateResends(cfg: Config, s: State, claim: nat, chunk: seq<Record>, a: Send, b: Send)
    requires Inv(cfg, s) && KeyInv(cfg, s) && claim < |s.claims| && ChunkOf(s.claims[claim].records, chunk) && Entries(cfg, chunk) != []
    requires SendSound(cfg, s, a) && a.key == ChunkBatchKey(Entries(cfg, chunk)) && b.key == a.key && b.claim == claim
    requires forall id :: id in b.order <==> id in IdsOf(Entries(cfg, chunk))
    ensures Resends(cfg, s, a, b) <==> StillThere(cfg, s, claim, Entries(cfg, chunk), a)
  {
    EntriesAreSendable(cfg, s, claim, chunk);
    ResendsIfCarried(cfg, s, IdsOf(Entries(cfg, chunk)), a, b);
    forall id | id in IdsOf(Entries(cfg, chunk))
      ensures id in a.order <==> (claim < a.claim ==> StillSendable(cfg, s.claims[a.claim], id))
    {
      EntryCarried(cfg, s, claim, a, id);
    }
  }

  lemma SendsHaveClaims(cfg: Config, s: State)
    requires KeyInv(cfg, s)
    ensures SendsClaimed(s)
  {
    forall i | 0 <= i < |s.sends|
      ensures s.sends[i].claim < |s.claims|
    {
      assert SendSound(cfg, s, s.sends[i]);
    }
  }

  lemma NewPair(cfg: Config, s: State, claim: nat, chunk: seq<Record>, i: nat, b: Send)
    requires Inv(cfg, s) && KeyInv(cfg, s) && claim < |s.claims| && ChunkOf(s.claims[claim].records, chunk) && Entries(cfg, chunk) != []
    requires b == Send(ChunkBatchKey(Entries(cfg, chunk)), IdSeq(Entries(cfg, chunk)), claim) && i < |s.sends|
    ensures s.sends[i].claim < |s.claims|
    ensures Resends(cfg, s, s.sends[i], b) <==> StillThere(cfg, s, claim, Entries(cfg, chunk), s.sends[i])
  {
    assert SendSound(cfg, s, s.sends[i]);
    assert LogSound(cfg, s.claims[claim]);
    EntriesOfChunk(cfg, s.claims[claim], chunk);
    IdSeqLists(Entries(cfg, chunk));
    if s.sends[i].key == b.key { LateResends(cfg, s, claim, chunk, s.sends[i], b); }
  }

  lemma OldPairs(cfg: Config, s: State, t: State)
    requires KeyInv(cfg, s) && s.sends <= t.sends && t.claims == s.claims
    ensures SendsClaimed(s)
    ensures forall i, j :: 0 <= i < j < |s.sends| ==> Resends(cfg, t, t.sends[i], t.sends[j])
  {
    SendsHaveClaims(cfg, s);
    forall i, j | 0 <= i < j < |s.sends|
      ensures Resends(cfg, t, t.sends[i], t.sends[j])
    {
      assert Resends(cfg, s, s.sends[i], s.sends[j]);
      SameLogs(cfg, s, t, s.sends[i], s.sends[j]);
    }
  }

  lemma LastPairs(cfg: Config, t: State, n: nat)
    requires SendsClaimed(t) && |t.sends| == n + 1
    requires forall i, j :: 0 <= i < j < n ==> Resends(cfg, t, t.sends[i], t.sends[j])
    ensures SameRows(cfg, t) <==> forall i :: 0 <= i < n ==> Resends(cfg, t, t.sends[i], t.sends[n])
  {
  }

  lemma OneMoreResend(cfg: Config, s: State, t: State, claim: nat, chunk: seq<Record>, send: Send)
    requires Inv(cfg, s) && KeyInv(cfg, s) && claim < |s.claims| && ChunkOf(s.claims[claim].records, chunk) && Entries(cfg, chunk) != []
    requires send == Send(ChunkBatchKey(Entries(cfg, chunk)), IdSeq(Entries(cfg, chunk)), claim)
    requires t.sends == s.sends + [send] && t.claims == s.claims
    ensures SendsClaimed(s) && SendsClaimed(t)
    ensures SameRows(cfg, t) <==> NoneDroppedOut(cfg, s, claim, Entries(cfg, chunk))
  {
    OldPairs(cfg, s, t);
    forall i | 0 <= i < |s.sends|
      ensures Resends(cfg, t, t.sends[i], t.sends[|s.sends|]) <==> StillThere(cfg, s, claim, Entries(cfg, chunk), s.sends[i])
    {
      NewPair(cfg, s, claim, chunk, i, send);
      SameLogs(cfg, s, t, s.sends[i], send);
    }
    LastPairs(cfg, t, |s.sends|);
  }

  lemma SameLogs(cfg: Config, s: State, t: State, a: Send, b: Send)
    requires t.claims == s.claims && b.claim < |s.claims|
    ensures Resends(cfg, s, a, b) <==> Resends(cfg, t, a, b)
  {
  }

  lemma LateKeys(cfg: Config, s: State, claim: nat, chunk: seq<Record>, ks: seq<nat>)
    requires Inv(cfg, s) && KeyInv(cfg, s) && KeysSent(s) && MayAssign(cfg, s, claim, chunk, ks) && Held(s, Entries(cfg, chunk))
    ensures SharedKeys(AfterAssign(s, claim, Entries(cfg, chunk), ks)) <==> NoOtherKey(s, Entries(cfg, chunk))
  {
    var entries := Entries(cfg, chunk);
    assert LogSound(cfg, s.claims[claim]);
    EntriesOfChunk(cfg, s.claims[claim], chunk);
    KeysAreShared(cfg, s);
    var send := Send(ChunkBatchKey(entries), IdSeq(entries), claim);
    OneMoreSend(s, AfterAssign(s, claim, entries, ks), send, ChunkBatchKey(entries), entries);
  }

  lemma LateRows(cfg: Config, s: State, claim: nat, chunk: seq<Record>, ks: seq<nat>)
    requires Inv(cfg, s) && KeyInv(cfg, s) && MayAssign(cfg, s, claim, chunk, ks) && Held(s, Entries(cfg, chunk))
    ensures var t := AfterAssign(s, claim, Entries(cfg, chunk), ks);
            SendsClaimed(s) && SendsClaimed(t) && (SameRows(cfg, t) <==> NoneDroppedOut(cfg, s, claim, Entries(cfg, chunk)))
  {
    var entries := Entries(cfg, chunk);
    OneMoreResend(cfg, s, AfterAssign(s, claim, entries, ks), claim, chunk, Send(ChunkBatchKey(entries), IdSeq(entries), claim));
  }

  /**
   After any timely run, an assignment that lands, however late, keeps resends stable exactly under these conditions:
   messages stay under one key when no entry's row carries another key than the one it writes, and later sends carry
   the earlier ones' remaining messages when no entry had dropped out at a later claim that sent under that key.
   */
  lemma LateKeyIsHarmless(cfg: Config, steps: seq<Step>, claim: nat, chunk: seq<Record>, ks: seq<nat>)
    requires TimelyRun(cfg, START, steps) && ValidRun(cfg, START, steps)
    requires MayAssign(cfg, Run(cfg, START, steps), claim, chunk, ks) && Held(Run(cfg, START, steps), Entries(cfg, chunk))
    ensures var s := Run(cfg, START, steps);
            var t := AfterAssign(s, claim, Entries(cfg, chunk), ks);
      && SendsClaimed(s) && SendsClaimed(t)
      && (SharedKeys(t) <==> NoOtherKey(s, Entries(cfg, chunk)))
      && (SameRows(cfg, t) <==> NoneDroppedOut(cfg, s, claim, Entries(cfg, chunk)))
  {
    ReachableKeyInv(cfg, steps);
    RunKeysSent(cfg, START, steps);
    LateKeys(cfg, Run(cfg, START, steps), claim, chunk, ks);
    LateRows(cfg, Run(cfg, START, steps), claim, chunk, ks);
  }

  // ---------- a run that breaks it ----------

  const TWO_MESSAGES := Config(ClaimRequest(2, 10, 0), (id: Id) => true)

  function Message(attempts: int, due: Option<Instant>, key: Option<BatchKey>): Row {
    Row(Raw, None, Pending, attempts, due, None, None, None, key, 0)
  }

  function Taken(id: Id, attempts: int): Record {
    Record(id, Raw, None, Pending, attempts, None, 0, None)
  }

  /** A slow worker claims both messages; another takes the first over, sends it and gives it back; the slow one wakes. */
  function LateRun(): seq<Step> {
    [ Produce(0, Raw, None, 0),
      Produce(1, Raw, None, 0),
      Claim({}, Pick({0, 1}, {}, {0, 1}, {}), [0, 1]),
      Tick(10),
      Claim({1}, Pick({0}, {}, {0}, {}), [0]),
      Assign(1, [Taken(0, 2)], [2]),
      Finish(2, ReleaseCall([Taken(0, 2)], 0), 10),
      Assign(0, [Taken(0, 1), Taken(1, 1)], [0, 1]) ]
  }

  // ---------- the states of that run ----------

  function Granted(id: Id, attempts: int, claim: nat, expiresAt: Instant): Grant {
    Grant(Taken(id, attempts), claim, expiresAt, Lease.Held, Untried)
  }

  function Produced(): Table {
    map[0 := Message(0, None, None), 1 := Message(0, None, None)]
  }

  function Leased(): Table {
    map[0 := Message(1, Some(10), None), 1 := Message(1, Some(10), None)]
  }

  function TakenOver(): Table {
    map[0 := Message(2, Some(20), None), 1 := Message(1, Some(10), None)]
  }

  function FirstClaim(): ClaimLog {
    ClaimLog(Produced(), 0, {}, Pick({0, 1}, {}, {0, 1}, {}), [0, 1], [Taken(0, 1), Taken(1, 1)])
  }

  function SecondClaim(): ClaimLog {
    ClaimLog(Leased(), 10, {1}, Pick({0}, {}, {0}, {}), [0], [Taken(0, 2)])
  }

  function Slow(): seq<Grant> {
    [Granted(0, 1, 0, 10), Granted(1, 1, 0, 10)]
  }

  function FirstSend(): Send { Send(KeyFor({0}), [0], 1) }

  function SecondSend(): Send { Send(KeyFor({0, 1}), [0, 1], 0) }

  function AfterProducing(): State {
    State(Produced(), [], [], [], multiset{}, 0)
  }

  function AfterSlowClaim(now: Instant): State {
    State(Leased(), Slow(), [FirstClaim()], [], multiset{}, now)
  }

  function AfterTakeOver(): State {
    State(TakenOver(), Slow() + [Granted(0, 2, 1, 20)], [FirstClaim(), SecondClaim()], [], multiset{}, 10)
  }

  function AfterFirstSend(): State {
    State(map[0 := Message(2, Some(20), Some(KeyFor({0}))), 1 := Message(1, Some(10), None)],
          Slow() + [Granted(0, 2, 1, 20).(stage := Submitted)],
          [FirstClaim(), SecondClaim()], [FirstSend()], multiset{}, 10)
  }

  function AfterGivingBack(): State {
    State(map[0 := Message(1, Some(10), Some(KeyFor({0}))), 1 := Message(1, Some(10), None)],
          Slow() + [Granted(0, 2, 1, 20).(stage := Submitted, standing := Lease.GivenBack)],
          [FirstClaim(), SecondClaim()], [FirstSend()], multiset{}, 10)
  }

  function AfterLateSend(): State {
    State(map[0 := Message(1, Some(10), Some(KeyFor({0, 1}))), 1 := Message(1, Some(10), Some(KeyFor({0, 1})))],
          [Granted(0, 1, 0, 10).(stage := Submitted), Granted(1, 1, 0, 10).(stage := Submitted),
           Granted(0, 2, 1, 20).(stage := Submitted, standing := Lease.GivenBack)],
          [FirstClaim(), SecondClaim()], [FirstSend(), SecondSend()], multiset{}, 10)
  }

  function States(): seq<State> {
    [START, State(map[0 := Message(0, None, None)], [], [], [], multiset{}, 0), AfterProducing(),
     AfterSlowClaim(0), AfterSlowClaim(10), AfterTakeOver(), AfterFirstSend(), AfterGivingBack(), AfterLateSend()]
  }

  ghost predicate Next(cfg: Config, s: State, step: Step, t: State) {
    Enabled(cfg, s, step) && Apply(cfg, s, step) == t
  }

  lemma {:induction false} Chain(cfg: Config, states: seq<State>, steps: seq<Step>)
    requires |states| == |steps| + 1 && forall i :: 0 <= i < |steps| ==> Next(cfg, states[i], steps[i], states[i + 1])
    ensures ValidRun(cfg, states[0], steps) && Run(cfg, states[0], steps) == states[|steps|]
    decreases |steps|
  {
    if steps != [] {
      assert Next(cfg, states[0], steps[0], states[1]);
      forall i | 0 <= i < |steps[1..]|
        ensures Next(cfg, states[1..][i], steps[1..][i], states[1..][i + 1])
      {
        assert Next(cfg, states[i + 1], steps[i + 1], states[i + 2]);
      }
      Chain(cfg, states[1..], steps[1..]);
    }
  }

  lemma FirstSteps()
    ensures Next(TWO_MESSAGES, States()[0], LateRun()[0], States()[1])
    ensures Next(TWO_MESSAGES, States()[1], LateRun()[1], States()[2])
    ensures Next(TWO_MESSAGES, States()[3], LateRun()[3], States()[4])
  {
  }

  /** When all free pending rows fit and no row has a batch, a claim selects exactly them. */
  lemma PicksAll(t: Table, request: ClaimRequest, now: Instant, locked: set<Id>, ids: set<Id>)
    requires FreePending(t, now, locked) == ids && |ids| <= request.limit
    requires forall id <- t :: t[id].batchKey.None? && !t[id].status.Dead?
    ensures IsPick(t, request, now, locked, Pick(ids, {}, ids, {}))
  {
    assert FreeDead(t, now, request.replayWindow, locked) == {};
    assert ids + {} == ids;
    assert Siblings(t, now, request.replayWindow, locked, ids) == {};
  }

  lemma SlowClaim()
    ensures Next(TWO_MESSAGES, AfterProducing(), Claim({}, Pick({0, 1}, {}, {0, 1}, {}), [0, 1]), AfterSlowClaim(0))
  {
    var s := AfterProducing();
    PicksAll(s.rows, TWO_MESSAGES.request, 0, {}, {0, 1}) by { assert FreePending(s.rows, 0, {}) == {0, 1}; }
    SlowClaimResult();
  }

  lemma SlowClaimResult()
    ensures AfterClaim(TWO_MESSAGES, AfterProducing(), {}, Pick({0, 1}, {}, {0, 1}, {}), [0, 1]) == AfterSlowClaim(0)
  {
    var s := AfterProducing();
    var t := AfterClaim(TWO_MESSAGES, s, {}, Pick({0, 1}, {}, {0, 1}, {}), [0, 1]);
    assert NewRecords(s.rows, [0, 1], 0, 0) == [Taken(0, 1), Taken(1, 1)];
    assert t.rows == Leased();
    assert t.grants == Slow();
  }

  lemma TakeOver()
    ensures Next(TWO_MESSAGES, AfterSlowClaim(10), Claim({1}, Pick({0}, {}, {0}, {}), [0]), AfterTakeOver())
  {
    var s := AfterSlowClaim(10);
    PicksAll(s.rows, TWO_MESSAGES.request, 10, {1}, {0}) by { assert FreePending(s.rows, 10, {1}) == {0}; }
    TakeOverResult();
  }

  lemma TakeOverResult()
    ensures AfterClaim(TWO_MESSAGES, AfterSlowClaim(10), {1}, Pick({0}, {}, {0}, {}), [0]) == AfterTakeOver()
  {
    var s := AfterSlowClaim(10);
    var t := AfterClaim(TWO_MESSAGES, s, {1}, Pick({0}, {}, {0}, {}), [0]);
    assert NewRecords(s.rows, [0], 10, 0) == [Taken(0, 2)];
    assert t.rows == TakenOver();
    assert t.grants == Slow() + [Granted(0, 2, 1, 20)];
  }

  /** Rows without a key, with one kind and history, make one group, and so one chunk. */
  lemma OneChunk(records: seq<Record>, attempts: int)
    requires 0 < |records| <= 2 && forall r <- records :: r == Taken(r.id, attempts)
    ensures ChunkOf(records, records) && Entries(TWO_MESSAGES, records) == records
  {
    var key := Loose(Raw, "", false, attempts);
    OneGroup(records, key);
    assert IsWhole(WithKey(records, key)) && Slices(records) == [records];
    AllRendered(records, Renders(TWO_MESSAGES), |records|);
    assert records[..|records|] == records;
  }

  lemma NextAssign(cfg: Config, s: State, claim: nat, chunk: seq<Record>, ks: seq<nat>)
    requires MayAssign(cfg, s, claim, chunk, ks)
    ensures Next(cfg, s, Assign(claim, chunk, ks), AfterAssign(s, claim, Entries(cfg, chunk), ks))
  {
  }

  lemma FirstAssign()
    ensures Next(TWO_MESSAGES, AfterTakeOver(), Assign(1, [Taken(0, 2)], [2]), AfterFirstSend())
  {
    FirstAssignIsAllowed();
    FirstAssignResult([Taken(0, 2)]);
    NextAssign(TWO_MESSAGES, AfterTakeOver(), 1, [Taken(0, 2)], [2]);
  }

  lemma FirstAssignResult(entries: seq<Record>)
    requires entries == [Taken(0, 2)]
    ensures Entries(TWO_MESSAGES, entries) == entries
    ensures AfterAssign(AfterTakeOver(), 1, entries, [2]) == AfterFirstSend()
  {
    var s := AfterTakeOver();
    assert Entries(TWO_MESSAGES, entries) == entries by { OneChunk(entries, 2); }
    assert ChunkBatchKey(entries) == KeyFor({0}) && IdSeq(entries) == [0] by { OnlyEntry(entries); }
    assert Held(s, entries) && AssignBatch(s.rows, Leases(entries), KeyFor({0})) == AfterFirstSend().rows by {
      OnlyEntry(entries);
      FirstTable(entries);
    }
    assert Staged(s.grants, [2], Submitted) == AfterFirstSend().grants;
  }

  lemma OnlyEntry(entries: seq<Record>)
    requires entries == [Taken(0, 2)]
    ensures IdsOf(entries) == {0} && IdSeq(entries) == [0] && ChunkBatchKey(entries) == KeyFor({0})
  {
    assert entries[0].id == 0;
  }

  lemma FirstTable(entries: seq<Record>)
    requires entries == [Taken(0, 2)] && IdsOf(entries) == {0}
    ensures Held(AfterTakeOver(), entries)
    ensures AssignBatch(AfterTakeOver().rows, Leases(entries), KeyFor({0})) == AfterFirstSend().rows
  {
    AssignWrites(AfterTakeOver().rows, entries, KeyFor({0}));
  }

  lemma FirstAssignIsAllowed()
    ensures MayAssign(TWO_MESSAGES, AfterTakeOver(), 1, [Taken(0, 2)], [2])
  {
    OneChunk([Taken(0, 2)], 2);
    assert AfterTakeOver().grants[2] == Granted(0, 2, 1, 20);
  }

  lemma GiveBack()
    ensures Next(TWO_MESSAGES, AfterFirstSend(), Finish(2, ReleaseCall([Taken(0, 2)], 0), 10), AfterGivingBack())
  {
    var s := AfterFirstSend();
    var t := AfterFinish(s, 2, ReleaseCall([Taken(0, 2)], 0), 10);
    assert t.rows == AfterGivingBack().rows;
    assert t.grants == AfterGivingBack().grants;
  }

  lemma LateAssign()
    ensures Next(TWO_MESSAGES, AfterGivingBack(), Assign(0, [Taken(0, 1), Taken(1, 1)], [0, 1]), AfterLateSend())
  {
    LateAssignIsAllowed();
    LateAssignResult([Taken(0, 1), Taken(1, 1)]);
    NextAssign(TWO_MESSAGES, AfterGivingBack(), 0, [Taken(0, 1), Taken(1, 1)], [0, 1]);
  }

  lemma LateAssignResult(entries: seq<Record>)
    requires entries == [Taken(0, 1), Taken(1, 1)]
    ensures Entries(TWO_MESSAGES, entries) == entries
    ensures AfterAssign(AfterGivingBack(), 0, entries, [0, 1]) == AfterLateSend()
  {
    var s := AfterGivingBack();
    assert Entries(TWO_MESSAGES, entries) == entries by { OneChunk(entries, 1); }
    assert ChunkBatchKey(entries) == KeyFor({0, 1}) && IdSeq(entries) == [0, 1] by { BothEntries(entries); }
    assert Held(s, entries) && AssignBatch(s.rows, Leases(entries), KeyFor({0, 1})) == AfterLateSend().rows by {
      BothEntries(entries);
      LateTable(entries);
    }
    assert Staged(s.grants, [0, 1], Submitted) == AfterLateSend().grants;
  }

  lemma LateTable(entries: seq<Record>)
    requires entries == [Taken(0, 1), Taken(1, 1)] && IdsOf(entries) == {0, 1}
    ensures Held(AfterGivingBack(), entries)
    ensures AssignBatch(AfterGivingBack().rows, Leases(entries), KeyFor({0, 1})) == AfterLateSend().rows
  {
    AssignWrites(AfterGivingBack().rows, entries, KeyFor({0, 1}));
  }

  lemma BothEntries(entries: seq<Record>)
    requires entries == [Taken(0, 1), Taken(1, 1)]
    ensures IdsOf(entries) == {0, 1} && IdSeq(entries) == [0, 1] && ChunkBatchKey(entries) == KeyFor({0, 1})
  {
    assert entries[0].id == 0 && entries[1].id == 1;
  }

  lemma LateAssignIsAllowed()
    ensures MayAssign(TWO_MESSAGES, AfterGivingBack(), 0, [Taken(0, 1), Taken(1, 1)], [0, 1])
  {
    OneChunk([Taken(0, 1), Taken(1, 1)], 1);
    assert AfterGivingBack().grants[0] == Granted(0, 1, 0, 10) && AfterGivingBack().grants[1] == Granted(1, 1, 0, 10);
  }

  lemma EachStep(i: int)
    requires 0 <= i < 8
    ensures Next(TWO_MESSAGES, States()[i], LateRun()[i], States()[i + 1])
  {
    if i == 2 {
      SlowClaim();
    } else if i == 4 {
      TakeOver();
    } else if i == 5 {
      FirstAssign();
    } else if i == 6 {
      GiveBack();
    } else if i == 7 {
      LateAssign();
    } else {
      FirstSteps();
    }
  }

  lemma LateRunIsRun()
    ensures ValidRun(TWO_MESSAGES, START, LateRun()) && Run(TWO_MESSAGES, START, LateRun()) == AfterLateSend()
  {
    forall i | 0 <= i < 8
      ensures Next(TWO_MESSAGES, States()[i], LateRun()[i], States()[i + 1])
    {
      EachStep(i);
    }
    Chain(TWO_MESSAGES, States(), LateRun());
  }

  /** Without the within-lease assumption a message goes out under two batch keys. */
  lemma LateKeyBreaksResend()
    ensures ValidRun(TWO_MESSAGES, START, LateRun()) && !TimelyRun(TWO_MESSAGES, START, LateRun())
    ensures var sends := Run(TWO_MESSAGES, START, LateRun()).sends;
            |sends| == 2 && 0 in sends[0].order && 0 in sends[1].order && sends[0].key != sends[1].key
  {
    LateRunIsRun();
    assert KeyFor({0}) != KeyFor({0, 1}) by { assert 1 in {0, 1} && 1 !in {0}; }
    if TimelyRun(TWO_MESSAGES, START, LateRun()) {
      StableResend(TWO_MESSAGES, LateRun(), 0, 1, 0);
      assert false;
    }
  }
}
