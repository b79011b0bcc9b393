/**
 What a retry sends.  As long as every worker writes its batch keys before its lease runs out, a batch
 is sent again under the same key, with the same rows minus those that can no longer be sent, so an
 unchanged batch reaches the provider under the same idempotency key.
 */
module EmailResend {
  import opened Wrappers
  import opened Ordering
  import Lease
  import opened EmailQueue
  import opened EmailWorker
  import opened EmailBatch
  import opened EmailSystem

  /** Batch keys are written within the lease. */
  ghost predicate InTime(s: State, ks: seq<nat>) {
    forall i :: 0 <= i < |ks| ==> Unexpired(s, ks[i])
  }

  ghost predicate Timely(s: State, step: Step) {
    step.Assign? ==> InTime(s, step.ks)
  }

  ghost predicate TimelyRun(cfg: Config, s: State, steps: seq<Step>)
    decreases |steps|
  {
    steps == [] || (Enabled(cfg, s, steps[0]) && Timely(s, steps[0]) && TimelyRun(cfg, Apply(cfg, s, steps[0]), steps[1..]))
  }

  lemma {:induction false} TimelyIsValid(cfg: Config, s: State, steps: seq<Step>)
    requires TimelyRun(cfg, s, steps)
    ensures ValidRun(cfg, s, steps)
    decreases |steps|
  {
    if steps != [] { TimelyIsValid(cfg, Apply(cfg, s, steps[0]), steps[1..]); }
  }

  // ---------- batch keys ----------

  predicate Holder(t: Table, key: BatchKey, id: Id) {
    id in t && t[id].batchKey == Some(key)
  }

  /** A key in the table is the digest of exactly the rows that carry it; they fit a chunk and they render. */
  ghost predicate KeySealed(cfg: Config, t: Table, key: BatchKey) {
    |key.ids| <= CHUNK_SIZE && forall id :: (id in key.ids <==> Holder(t, key, id)) && (id in key.ids ==> cfg.renders(id))
  }

  ghost predicate Sealed(cfg: Config, t: Table) {
    forall id :: id in t && t[id].batchKey.Some? ==> KeySealed(cfg, t, t[id].batchKey.value)
  }

  /** The record of an untried, unexpired grant still names the batch of its row. */
  ghost predicate KeyAgrees(s: State, k: int)
    requires 0 <= k < |s.grants|
  {
    var r := s.grants[k].record;
    Unexpired(s, k) && s.grants[k].stage.Untried? ==> r.id in s.rows && s.rows[r.id].batchKey == r.batchKey
  }

  // ---------- sends ----------

  function Sendable(cfg: Config, log: ClaimLog, key: BatchKey): set<Id> {
    ReplayableIn(log.table, key, log.at, cfg.request.replayWindow)
  }

  /** A send carries a non-empty sorted part of its sealed batch: all of it, or what its claim could still send. */
  ghost predicate SendSound(cfg: Config, s: State, send: Send) {
    && send.claim < |s.claims| && send.order != [] && Distinct(send.order) && InOrder(CreatedAt(s.rows), send.order)
    && KeySealed(cfg, s.rows, send.key)
    && (forall id <- send.order :: id in send.key.ids && id in s.claims[send.claim].order)
    && (Lists(send.order, send.key.ids) || Lists(send.order, Sendable(cfg, s.claims[send.claim], send.key)))
  }

  ghost predicate StillSendable(cfg: Config, log: ClaimLog, id: Id) {
    id in log.table && Replayable(log.table[id], log.at, cfg.request.replayWindow)
  }

  /** A later send of the same batch: exactly the rows of the earlier one that its claim could still send. */
  ghost predicate Resends(cfg: Config, s: State, a: Send, b: Send)
    requires b.claim < |s.claims|
  {
    a.key == b.key ==> forall id :: id in b.order <==> id in a.order && StillSendable(cfg, s.claims[b.claim], id)
  }

  ghost predicate SendsSound(cfg: Config, s: State) {
    && (forall i :: 0 <= i < |s.sends| ==> SendSound(cfg, s, s.sends[i]))
    && (forall i, j :: 0 <= i < j < |s.sends| ==> Resends(cfg, s, s.sends[i], s.sends[j]))
  }

  ghost predicate KeyInv(cfg: Config, s: State) {
    && Sealed(cfg, s.rows)
    && (forall k :: 0 <= k < |s.grants| ==> KeyAgrees(s, k))
    && (forall c :: 0 <= c < |s.claims| ==> Sealed(cfg, s.claims[c].table))
    && SendsSound(cfg, s)
  }

  // ---------- assigning a key in time ----------

  lemma EntriesOf(cfg: Config, chunk: seq<Record>)
    requires Ascending(chunk)
    ensures Ascending(Entries(cfg, chunk))
    ensures forall r :: r in Entries(cfg, chunk) <==> r in chunk && cfg.renders(r.id)
    ensures (forall r <- chunk :: cfg.renders(r.id)) ==> Entries(cfg, chunk) == chunk
  {
    var renders := Renders(cfg);
    RenderedMembers(chunk, renders, |chunk|);
    RenderedAscending(chunk, renders, |chunk|);
    assert chunk[..|chunk|] == chunk;
    if forall r <- chunk :: cfg.renders(r.id) { AllRendered(chunk, renders, |chunk|); }
  }

  /** The entries of a chunk assigned in time are all held, and their records are current. */
  ghost predicate Current(cfg: Config, s: State, claim: nat, entries: seq<Record>)
    requires claim < |s.claims|
  {
    && 0 < |entries| <= CHUNK_SIZE && Ascending(entries) && Held(s, entries)
    && forall r <- entries ::
         && r in s.claims[claim].records && cfg.renders(r.id)
         && r.id in s.rows && s.rows[r.id].batchKey == r.batchKey && r.batchKey == entries[0].batchKey
  }

  lemma GrantIsCurrent(cfg: Config, s: State, k: int)
    requires Inv(cfg, s) && KeyInv(cfg, s) && Unexpired(s, k) && s.grants[k].stage.Untried?
    ensures var r := s.grants[k].record; Leased(s.rows, KeyOf(r)) && s.rows[r.id].batchKey == r.batchKey
  {
    UnexpiredRow(cfg, s, k);
    assert KeyAgrees(s, k);
  }

  lemma EntriesOfChunk(cfg: Config, log: ClaimLog, chunk: seq<Record>)
    requires LogSound(cfg, log) && ChunkOf(log.records, chunk) && Entries(cfg, chunk) != []
    ensures var entries := Entries(cfg, chunk);
      && 0 < |entries| <= CHUNK_SIZE && Ascending(entries)
      && forall r <- entries :: r in log.records && cfg.renders(r.id) && r.batchKey == entries[0].batchKey
  {
    var entries := Entries(cfg, chunk);
    AnswerFacts(log.table, cfg.request, log.at, log.pick, log.order, log.records);
    ChunkFacts(log.records, chunk);
    EntriesOf(cfg, chunk);
    EntriesFit(cfg, chunk);
    assert entries[0] in entries;
    forall r | r in entries
      ensures r.batchKey == entries[0].batchKey
    {
      assert GroupKeyOf(r) == GroupKeyOf(entries[0]);
    }
  }

  lemma EntriesAreCurrent(cfg: Config, s: State, claim: nat, chunk: seq<Record>, ks: seq<nat>)
    requires Inv(cfg, s) && KeyInv(cfg, s) && MayAssign(cfg, s, claim, chunk, ks) && InTime(s, ks)
    ensures Current(cfg, s, claim, Entries(cfg, chunk))
  {
    var entries := Entries(cfg, chunk);
    assert LogSound(cfg, s.claims[claim]);
    EntriesOfChunk(cfg, s.claims[claim], chunk);
    forall r | r in entries
      ensures Leased(s.rows, KeyOf(r)) && s.rows[r.id].batchKey == r.batchKey
    {
      var i :| 0 <= i < |entries| && entries[i] == r;
      assert Unexpired(s, ks[i]);
      GrantIsCurrent(cfg, s, ks[i]);
    }
  }

  lemma EntriesFit(cfg: Config, chunk: seq<Record>)
    ensures |Entries(cfg, chunk)| <= |chunk|
  {
    RenderedFits(chunk, Renders(cfg), |chunk|);
  }

  lemma {:induction false} RenderedFits(rows: seq<Record>, renders: Record -> bool, upTo: nat)
    requires upTo <= |rows|
    ensures |RenderedUpTo(rows, renders, upTo)| <= upTo
    decreases upTo
  {
    if upTo > 0 { RenderedFits(rows, renders, upTo - 1); }
  }

  lemma SealedBatchIsSmall(cfg: Config, t: Table, key: BatchKey, now: Instant, window: nat)
    requires KeySealed(cfg, t, key)
    ensures ReplayableIn(t, key, now, window) <= key.ids && |ReplayableIn(t, key, now, window)| <= CHUNK_SIZE
  {
    assert forall id <- ReplayableIn(t, key, now, window) :: Holder(t, key, id);
    SubsetSize(ReplayableIn(t, key, now, window), key.ids);
  }

  /** A chunk that carries a key is sent whole: every row its claim could still send under that key. */
  lemma KeyedEntries(cfg: Config, s: State, claim: nat, chunk: seq<Record>)
    requires Inv(cfg, s) && KeyInv(cfg, s) && claim < |s.claims| && ChunkOf(s.claims[claim].records, chunk)
    requires Entries(cfg, chunk) != [] && Entries(cfg, chunk)[0].batchKey.Some?
    ensures var entries, log := Entries(cfg, chunk), s.claims[claim];
            var key := entries[0].batchKey.value;
            KeySealed(cfg, log.table, key) && IdsOf(entries) == Sendable(cfg, log, key)
  {
    var entries, log := Entries(cfg, chunk), s.claims[claim];
    var key := entries[0].batchKey.value;
    assert LogSound(cfg, log) && Sealed(cfg, log.table);
    AnswerFacts(log.table, cfg.request, log.at, log.pick, log.order, log.records);
    ChunkFacts(log.records, chunk);
    EntriesOf(cfg, chunk);
    assert entries[0] in chunk && chunk[0] in chunk;
    assert entries[0] in log.records;
    assert KeySealed(cfg, log.table, key);
    SealedBatchIsSmall(cfg, log.table, key, log.at, cfg.request.replayWindow);
    KeyedChunk(log.table, cfg.request, log.at, log.locked, log.pick, log.order, log.records, chunk);
    forall r | r in chunk
      ensures cfg.renders(r.id)
    {
      assert r.id in IdsOf(chunk);
    }
  }

  /** Keys and creation times are kept, and a row only joins a key that nothing carried. */
  ghost predicate Carries(t: Table, u: Table) {
    && (forall id <- t :: id in u && u[id].createdAt == t[id].createdAt)
    && (forall key, id :: Holder(t, key, id) ==> Holder(u, key, id))
    && (forall key, id, x :: Holder(u, key, id) && Holder(t, key, x) ==> Holder(t, key, id))
  }

  lemma SealKept(cfg: Config, t: Table, u: Table, key: BatchKey, id: Id)
    requires Carries(t, u) && KeySealed(cfg, t, key) && id in key.ids
    ensures KeySealed(cfg, u, key)
  {
  }

  lemma SendKept(cfg: Config, s: State, t: State, send: Send)
    requires Carries(s.rows, t.rows) && s.claims <= t.claims && SendSound(cfg, s, send)
    ensures SendSound(cfg, t, send)
  {
    assert send.order[0] in send.order;
    SealKept(cfg, s.rows, t.rows, send.key, send.order[0]);
    assert t.claims[send.claim] == s.claims[send.claim];
    forall i, j | 0 <= i < j < |send.order|
      ensures Earlier(CreatedAt(t.rows), send.order[i], send.order[j])
    {
      assert Earlier(CreatedAt(s.rows), send.order[i], send.order[j]);
    }
  }

  lemma SendsKept(cfg: Config, s: State, t: State)
    requires Carries(s.rows, t.rows) && s.claims <= t.claims && SendsSound(cfg, s) && t.sends == s.sends
    ensures SendsSound(cfg, t)
  {
    forall i | 0 <= i < |s.sends|
      ensures SendSound(cfg, t, s.sends[i])
    {
      SendKept(cfg, s, t, s.sends[i]);
    }
  }

  // ---------- the assigned table ----------

  lemma AssignWrites(t: Table, entries: seq<Record>, key: BatchKey)
    requires forall r <- entries :: Leased(t, KeyOf(r))
    ensures var u := AssignBatch(t, Leases(entries), key);
      && u.Keys == t.Keys
      && forall id <- t :: u[id] == if id in IdsOf(entries) then t[id].(batchKey := Some(key)) else t[id]
  {
    forall id | id in t
      ensures id in WrittenRows(t, Leases(entries)) <==> id in IdsOf(entries)
    {
    }
  }

  /** Assigning a carried key again writes nothing new; a fresh key is carried by nothing else. */
  lemma AssignCarries(cfg: Config, s: State, claim: nat, entries: seq<Record>)
    requires Sealed(cfg, s.rows) && claim < |s.claims| && Current(cfg, s, claim, entries)
    ensures var key, u := ChunkBatchKey(entries), AssignBatch(s.rows, Leases(entries), ChunkBatchKey(entries));
      && Carries(s.rows, u) && KeySealed(cfg, u, key) && (forall id <- IdsOf(entries) :: id in key.ids)
      && (forall k2, id :: Holder(u, k2, id) ==> k2 == key || Holder(s.rows, k2, id))
      && (entries[0].batchKey.Some? ==> u == s.rows)
      && (entries[0].batchKey.None? ==> key == KeyFor(IdsOf(entries)) && forall x :: !Holder(s.rows, key, x))
  {
    var key := ChunkBatchKey(entries);
    var u := AssignBatch(s.rows, Leases(entries), key);
    AssignWrites(s.rows, entries, key);
    assert entries[0] in entries;
    if entries[0].batchKey.Some? {
      assert u == s.rows;
      assert KeySealed(cfg, s.rows, key);
    } else {
      FreshKey(cfg, s.rows, entries);
      IdCount(entries);
      assert forall id :: Holder(u, key, id) <==> id in IdsOf(entries);
      assert forall k2, id :: k2 != key && Holder(u, k2, id) ==> Holder(s.rows, k2, id);
    }
  }

  lemma FreshKey(cfg: Config, t: Table, entries: seq<Record>)
    requires Sealed(cfg, t) && entries != [] && entries[0].id in t && t[entries[0].id].batchKey.None?
    ensures forall x :: !Holder(t, KeyFor(IdsOf(entries)), x)
  {
    var key := KeyFor(IdsOf(entries));
    assert entries[0] in entries;
    assert entries[0].id in key.ids && !Holder(t, key, entries[0].id);
  }

  lemma CarriedSealed(cfg: Config, t: Table, u: Table, key: BatchKey)
    requires Sealed(cfg, t) && Carries(t, u) && KeySealed(cfg, u, key)
    requires forall k2, id :: Holder(u, k2, id) ==> k2 == key || Holder(t, k2, id)
    ensures Sealed(cfg, u)
  {
    forall id | id in u && u[id].batchKey.Some?
      ensures KeySealed(cfg, u, u[id].batchKey.value)
    {
      var k2 := u[id].batchKey.value;
      assert Holder(u, k2, id);
      if k2 != key {
        assert KeySealed(cfg, t, k2);
        SealKept(cfg, t, u, k2, id);
      }
    }
  }

  // ---------- a send under a key that was sent before ----------

  lemma LogsAged(cfg: Config, s: State, c: nat, d: nat)
    requires LogsSound(cfg, s) && c <= d < |s.claims|
    ensures s.claims[c] == s.claims[d] || Aged(s.claims[c].table, s.claims[c].at, s.claims[d].table, s.claims[d].at)
  {
  }

  /** The claims of two sends of one batch: the later claim saw no more than the earlier one. */
  lemma LaterClaimSendsLess(cfg: Config, earlier: ClaimLog, later: ClaimLog, key: BatchKey)
    requires earlier == later || Aged(earlier.table, earlier.at, later.table, later.at)
    requires KeySealed(cfg, earlier.table, key) && KeySealed(cfg, later.table, key)
    ensures Sendable(cfg, later, key) <= Sendable(cfg, earlier, key)
  {
    if earlier != later {
      forall id | id in Sendable(cfg, later, key)
        ensures id in Sendable(cfg, earlier, key)
      {
        assert Holder(later.table, key, id);
        assert Holder(earlier.table, key, id);
        ReplayableBefore(earlier.table, earlier.at, later.table, later.at, cfg.request.replayWindow, id);
      }
    }
  }

  /** A chunk held in time was not sent by a later claim. */
  lemma NoLaterSend(cfg: Config, s: State, claim: nat, chunk: seq<Record>, ks: seq<nat>, send: Send, id: Id)
    requires Inv(cfg, s) && KeyInv(cfg, s) && MayAssign(cfg, s, claim, chunk, ks) && InTime(s, ks)
    requires SendSound(cfg, s, send) && id in send.order && id in IdsOf(Entries(cfg, chunk))
    ensures send.claim <= claim
  {
    var entries := Entries(cfg, chunk);
    var i :| 0 <= i < |entries| && entries[i].id == id;
    assert Unexpired(s, ks[i]);
    assert GrantLogged(cfg, s, ks[i]);
  }

  /** What a claim can still send of a sealed batch. */
  lemma SendableOfSealed(cfg: Config, log: ClaimLog, key: BatchKey)
    requires KeySealed(cfg, log.table, key)
    ensures forall id :: id in Sendable(cfg, log, key) <==> id in key.ids && StillSendable(cfg, log, id)
  {
    forall id
      ensures id in Sendable(cfg, log, key) <==> id in key.ids && StillSendable(cfg, log, id)
    {
      assert id in key.ids <==> Holder(log.table, key, id);
    }
  }

  ghost predicate ResendsBatch(cfg: Config, s: State, claim: nat, chunk: seq<Record>, send: Send) {
    && claim < |s.claims| && KeySealed(cfg, s.claims[claim].table, send.key)
    && IdsOf(Entries(cfg, chunk)) == Sendable(cfg, s.claims[claim], send.key)
    && SendSound(cfg, s, send) && Lists(send.order, Sendable(cfg, s.claims[send.claim], send.key))
  }

  lemma SendersKeyIsSealed(cfg: Config, s: State, send: Send)
    requires KeyInv(cfg, s) && SendSound(cfg, s, send) && Lists(send.order, Sendable(cfg, s.claims[send.claim], send.key))
    ensures KeySealed(cfg, s.claims[send.claim].table, send.key) && send.order[0] in Sendable(cfg, s.claims[send.claim], send.key)
  {
    assert send.order[0] in send.order;
    assert Sealed(cfg, s.claims[send.claim].table) && Holder(s.claims[send.claim].table, send.key, send.order[0]);
  }

  lemma EarlierSendIsEarlierClaim(cfg: Config, s: State, claim: nat, chunk: seq<Record>, ks: seq<nat>, send: Send)
    requires Inv(cfg, s) && KeyInv(cfg, s) && MayAssign(cfg, s, claim, chunk, ks) && InTime(s, ks)
    requires ResendsBatch(cfg, s, claim, chunk, send)
    ensures send.claim <= claim
  {
    SendersKeyIsSealed(cfg, s, send);
    if send.claim > claim {
      LogsAged(cfg, s, claim, send.claim);
      LaterClaimSendsLess(cfg, s.claims[claim], s.claims[send.claim], send.key);
      NoLaterSend(cfg, s, claim, chunk, ks, send, send.order[0]);
    }
  }

  /** An earlier send of the batch came from an earlier claim, which could send no less. */
  lemma EarlierSendHasMore(cfg: Config, s: State, claim: nat, chunk: seq<Record>, ks: seq<nat>, send: Send)
    requires Inv(cfg, s) && KeyInv(cfg, s) && MayAssign(cfg, s, claim, chunk, ks) && InTime(s, ks)
    requires ResendsBatch(cfg, s, claim, chunk, send)
    ensures Sendable(cfg, s.claims[claim], send.key) <= Sendable(cfg, s.claims[send.claim], send.key)
  {
    EarlierSendIsEarlierClaim(cfg, s, claim, chunk, ks, send);
    SendersKeyIsSealed(cfg, s, send);
    LogsAged(cfg, s, send.claim, claim);
    LaterClaimSendsLess(cfg, s.claims[send.claim], s.claims[claim], send.key);
  }

  lemma KeyedResend(cfg: Config, s: State, claim: nat, chunk: seq<Record>, ks: seq<nat>, send: Send)
    requires Inv(cfg, s) && KeyInv(cfg, s) && MayAssign(cfg, s, claim, chunk, ks) && InTime(s, ks)
    requires Entries(cfg, chunk)[0].batchKey == Some(send.key) && SendSound(cfg, s, send)
    ensures forall id :: id in IdsOf(Entries(cfg, chunk)) <==> id in send.order && StillSendable(cfg, s.claims[claim], id)
  {
    KeyedEntries(cfg, s, claim, chunk);
    SendableOfSealed(cfg, s.claims[claim], send.key);
    if !Lists(send.order, send.key.ids) {
      EarlierSendHasMore(cfg, s, claim, chunk, ks, send);
    }
  }

  // ---------- every timely step keeps the invariant ----------

  lemma NewSendSound(cfg: Config, s: State, claim: nat, chunk: seq<Record>, ks: seq<nat>)
    requires Inv(cfg, s) && KeyInv(cfg, s) && MayAssign(cfg, s, claim, chunk, ks) && InTime(s, ks)
    ensures var entries := Entries(cfg, chunk);
            SendSound(cfg, AfterAssign(s, claim, entries, ks), Send(ChunkBatchKey(entries), IdSeq(entries), claim))
  {
    var entries, log := Entries(cfg, chunk), s.claims[claim];
    var t := AfterAssign(s, claim, entries, ks);
    EntriesAreCurrent(cfg, s, claim, chunk, ks);
    AssignCarries(cfg, s, claim, entries);
    IdSeqLists(entries);
    assert LogSound(cfg, log) && Aged(log.table, log.at, s.rows, s.clock);
    AnswerFacts(log.table, cfg.request, log.at, log.pick, log.order, log.records);
    forall r | r in entries
      ensures r.id in CreatedAt(t.rows) && CreatedAt(t.rows)[r.id] == r.createdAt && r.id in log.order
    {
      assert r in log.records;
      assert r.id in IdsOf(log.records);
    }
    IdSeqInOrder(entries, CreatedAt(t.rows));
    if entries[0].batchKey.Some? { KeyedEntries(cfg, s, claim, chunk); }
  }

  lemma NewSendResends(cfg: Config, s: State, claim: nat, chunk: seq<Record>, ks: seq<nat>, send: Send)
    requires Inv(cfg, s) && KeyInv(cfg, s) && MayAssign(cfg, s, claim, chunk, ks) && InTime(s, ks)
    requires SendSound(cfg, s, send)
    ensures var entries := Entries(cfg, chunk);
            Resends(cfg, s, send, Send(ChunkBatchKey(entries), IdSeq(entries), claim))
  {
    var entries := Entries(cfg, chunk);
    EntriesAreCurrent(cfg, s, claim, chunk, ks);
    AssignCarries(cfg, s, claim, entries);
    IdSeqLists(entries);
    if send.key == ChunkBatchKey(entries) {
      assert send.order[0] in send.order;
      assert Holder(s.rows, send.key, send.order[0]);
      KeyedResend(cfg, s, claim, chunk, ks, send);
    }
  }

  /** Whoever holds an unexpired lease on an entry is the one that assigns it. */
  lemma EntryIsAssigned(cfg: Config, s: State, claim: nat, entries: seq<Record>, ks: seq<nat>, k: int)
    requires LeaseInv(cfg, s) && InTime(s, ks) && |ks| == |entries|
    requires forall i :: 0 <= i < |ks| ==> ks[i] < |s.grants| && s.grants[ks[i]].record == entries[i]
    requires Unexpired(s, k) && s.grants[k].record.id in IdsOf(entries)
    ensures k in ks
  {
    var i :| 0 <= i < |entries| && entries[i].id == s.grants[k].record.id;
    assert Unexpired(s, ks[i]);
    OneUnexpiredGrant(cfg, s, ks[i], k);
  }

  lemma AssignKeyAgrees(cfg: Config, s: State, claim: nat, entries: seq<Record>, ks: seq<nat>, k: int)
    requires 0 <= k < |s.grants| && KeyAgrees(s, k) && entries != [] && Held(s, entries)
    requires Unexpired(s, k) && s.grants[k].record.id in IdsOf(entries) ==> k in ks
    ensures KeyAgrees(AfterAssign(s, claim, entries, ks), k)
  {
    AssignWrites(s.rows, entries, ChunkBatchKey(entries));
  }

  lemma AssignKeyInv(cfg: Config, s: State, claim: nat, chunk: seq<Record>, ks: seq<nat>)
    requires Inv(cfg, s) && KeyInv(cfg, s) && MayAssign(cfg, s, claim, chunk, ks) && InTime(s, ks)
    ensures KeyInv(cfg, AfterAssign(s, claim, Entries(cfg, chunk), ks))
  {
    var entries := Entries(cfg, chunk);
    var t := AfterAssign(s, claim, entries, ks);
    EntriesAreCurrent(cfg, s, claim, chunk, ks);
    AssignCarries(cfg, s, claim, entries);
    CarriedSealed(cfg, s.rows, t.rows, ChunkBatchKey(entries));
    forall k | 0 <= k < |t.grants|
      ensures KeyAgrees(t, k)
    {
      if Unexpired(s, k) && s.grants[k].record.id in IdsOf(entries) { EntryIsAssigned(cfg, s, claim, entries, ks, k); }
      AssignKeyAgrees(cfg, s, claim, entries, ks, k);
    }
    AssignSendsSound(cfg, s, claim, chunk, ks);
  }

  lemma SendsGrow(cfg: Config, s: State, t: State, send: Send)
    requires SendsSound(cfg, s) && Carries(s.rows, t.rows) && t.claims == s.claims && t.sends == s.sends + [send]
    requires SendSound(cfg, t, send) && forall i :: 0 <= i < |s.sends| ==> Resends(cfg, s, s.sends[i], send)
    ensures SendsSound(cfg, t)
  {
    SendsKept(cfg, s, t.(sends := s.sends));
    assert forall i :: 0 <= i < |s.sends| ==> Resends(cfg, t, s.sends[i], send);
  }

  lemma AssignSendsSound(cfg: Config, s: State, claim: nat, chunk: seq<Record>, ks: seq<nat>)
    requires Inv(cfg, s) && KeyInv(cfg, s) && MayAssign(cfg, s, claim, chunk, ks) && InTime(s, ks)
    ensures SendsSound(cfg, AfterAssign(s, claim, Entries(cfg, chunk), ks))
  {
    var entries := Entries(cfg, chunk);
    var send := Send(ChunkBatchKey(entries), IdSeq(entries), claim);
    EntriesAreCurrent(cfg, s, claim, chunk, ks);
    AssignCarries(cfg, s, claim, entries);
    NewSendSound(cfg, s, claim, chunk, ks);
    forall i | 0 <= i < |s.sends|
      ensures Resends(cfg, s, s.sends[i], send)
    {
      NewSendResends(cfg, s, claim, chunk, ks, s.sends[i]);
    }
    SendsGrow(cfg, s, AfterAssign(s, claim, entries, ks), send);
  }

  /** Every other step leaves all keys alone. */
  ghost predicate SameKeys(t: Table, u: Table) {
    && (forall id <- t :: id in u && u[id].batchKey == t[id].batchKey && u[id].createdAt == t[id].createdAt)
    && (forall id <- u :: id !in t ==> u[id].batchKey.None?)
  }

  lemma ClaimSameKeys(cfg: Config, s: State, locked: set<Id>, pick: Pick, order: seq<Id>, k: int)
    requires KeyInv(cfg, s) && forall id <- order :: id in s.rows
    requires 0 <= k < |AfterClaim(cfg, s, locked, pick, order).grants|
    ensures KeyAgrees(AfterClaim(cfg, s, locked, pick, order), k)
  {
    if k < |s.grants| { assert KeyAgrees(s, k); }
  }

  lemma FinishSameKeys(cfg: Config, s: State, j: nat, call: Call, now: Instant, k: int)
    requires KeyInv(cfg, s) && j < |s.grants| && 0 <= k < |s.grants| && SameKeys(s.rows, AfterFinish(s, j, call, now).rows)
    ensures KeyAgrees(AfterFinish(s, j, call, now), k)
  {
    assert KeyAgrees(s, k);
  }

  lemma CallSameKeys(t: Table, leases: set<LeaseKey>, call: Call, now: Instant)
    ensures SameKeys(t, CallRows(t, leases, call, now))
  {
  }

  lemma OtherSameKeys(cfg: Config, s: State, step: Step)
    requires Enabled(cfg, s, step) && !step.Assign?
    ensures SameKeys(s.rows, Apply(cfg, s, step).rows)
  {
    if step.Finish? { CallSameKeys(s.rows, {KeyOf(s.grants[step.k].record)}, step.call, step.now); }
  }

  lemma OtherKeyAgrees(cfg: Config, s: State, step: Step, k: int)
    requires KeyInv(cfg, s) && Enabled(cfg, s, step) && !step.Assign? && 0 <= k < |Apply(cfg, s, step).grants|
    ensures KeyAgrees(Apply(cfg, s, step), k)
  {
    if step.Claim? {
      ClaimSameKeys(cfg, s, step.locked, step.pick, step.order, k);
    } else if step.Finish? {
      CallSameKeys(s.rows, {KeyOf(s.grants[step.k].record)}, step.call, step.now);
      FinishSameKeys(cfg, s, step.k, step.call, step.now, k);
    } else {
      assert KeyAgrees(s, k);
    }
  }

  lemma SameKeysSealed(cfg: Config, t: Table, u: Table)
    requires Sealed(cfg, t) && SameKeys(t, u)
    ensures Carries(t, u) && Sealed(cfg, u)
  {
    assert forall key, id :: Holder(t, key, id) <==> Holder(u, key, id);
    forall id | id in u && u[id].batchKey.Some?
      ensures KeySealed(cfg, u, u[id].batchKey.value)
    {
      assert KeySealed(cfg, t, t[id].batchKey.value);
    }
  }

  lemma OtherKeyInv(cfg: Config, s: State, step: Step)
    requires KeyInv(cfg, s) && Enabled(cfg, s, step) && !step.Assign?
    ensures KeyInv(cfg, Apply(cfg, s, step))
  {
    var t := Apply(cfg, s, step);
    OtherSameKeys(cfg, s, step);
    SameKeysSealed(cfg, s.rows, t.rows);
    forall k | 0 <= k < |t.grants|
      ensures KeyAgrees(t, k)
    {
      OtherKeyAgrees(cfg, s, step, k);
    }
    SendsKept(cfg, s, t);
  }

  lemma StepKeyInv(cfg: Config, s: State, step: Step)
    requires Inv(cfg, s) && KeyInv(cfg, s) && Enabled(cfg, s, step) && Timely(s, step)
    ensures KeyInv(cfg, Apply(cfg, s, step))
  {
    if step.Assign? {
      AssignKeyInv(cfg, s, step.claim, step.chunk, step.ks);
    } else {
      OtherKeyInv(cfg, s, step);
    }
  }

  lemma {:induction false} RunKeyInv(cfg: Config, s: State, steps: seq<Step>)
    requires Inv(cfg, s) && KeyInv(cfg, s) && TimelyRun(cfg, s, steps)
    ensures ValidRun(cfg, s, steps) && Inv(cfg, Run(cfg, s, steps)) && KeyInv(cfg, Run(cfg, s, steps))
    decreases |steps|
  {
    if steps != [] {
      StepInv(cfg, s, steps[0]);
      StepKeyInv(cfg, s, steps[0]);
      RunKeyInv(cfg, Apply(cfg, s, steps[0]), steps[1..]);
    }
  }

  // ---------- the promises ----------

  lemma ReachableKeyInv(cfg: Config, steps: seq<Step>)
    requires TimelyRun(cfg, START, steps)
    ensures ValidRun(cfg, START, steps) && Inv(cfg, Run(cfg, START, steps)) && KeyInv(cfg, Run(cfg, START, steps))
  {
    RunKeyInv(cfg, START, steps);
  }

  /** A key belongs to exactly the messages it was made from, never more than a chunk of them. */
  lemma KeyNamesItsBatch(cfg: Config, steps: seq<Step>, id: Id)
    requires TimelyRun(cfg, START, steps) && ValidRun(cfg, START, steps)
    requires id in Run(cfg, START, steps).rows && Run(cfg, START, steps).rows[id].batchKey.Some?
    ensures var rows := Run(cfg, START, steps).rows;
            var batch := rows[id].batchKey.value.ids;
            |batch| <= CHUNK_SIZE && forall x :: x in batch <==> Holder(rows, rows[id].batchKey.value, x)
  {
    ReachableKeyInv(cfg, steps);
    assert KeySealed(cfg, Run(cfg, START, steps).rows, Run(cfg, START, steps).rows[id].batchKey.value);
  }

  /**
   Two sends with a message in common go out under one batch key, and the later one carries exactly
   the messages of the earlier one that its claim found pending, or dead within the replay window.
   */
  lemma StableResend(cfg: Config, steps: seq<Step>, i: nat, j: nat, id: Id)
    requires TimelyRun(cfg, START, steps) && ValidRun(cfg, START, steps)
    requires var s := Run(cfg, START, steps);
             i < j < |s.sends| && id in s.sends[i].order && id in s.sends[j].order
    ensures var s := Run(cfg, START, steps);
      && s.sends[i].key == s.sends[j].key && s.sends[j].claim < |s.claims|
      && forall x :: x in s.sends[j].order <==>
           x in s.sends[i].order && StillSendable(cfg, s.claims[s.sends[j].claim], x)
  {
    ReachableKeyInv(cfg, steps);
    var s := Run(cfg, START, steps);
    var a, b := s.sends[i], s.sends[j];
    assert SendSound(cfg, s, a) && SendSound(cfg, s, b);
    assert Holder(s.rows, a.key, id) && Holder(s.rows, b.key, id);
    assert Resends(cfg, s, a, b);
  }

  /** The provider's idempotency key: a digest of the batch key and the entries, in order. */
  datatype IdempotencyKey = DigestOf(key: BatchKey, entries: seq<Id>)

  function IdempotencyKeyOf(send: Send): IdempotencyKey {
    DigestOf(send.key, send.order)
  }

  /** The idempotency key of a resend is the earlier one exactly when no message dropped out. */
  lemma SameBatchSameIdempotencyKey(cfg: Config, steps: seq<Step>, i: nat, j: nat, id: Id)
    requires TimelyRun(cfg, START, steps) && ValidRun(cfg, START, steps)
    requires var s := Run(cfg, START, steps);
             i < j < |s.sends| && id in s.sends[i].order && id in s.sends[j].order
    ensures var s := Run(cfg, START, steps);
      && s.sends[j].claim < |s.claims|
      && (IdempotencyKeyOf(s.sends[j]) == IdempotencyKeyOf(s.sends[i]) <==>
          forall x <- s.sends[i].order :: StillSendable(cfg, s.claims[s.sends[j].claim], x))
  {
    var s := Run(cfg, START, steps);
    var a, b := s.sends[i], s.sends[j];
    assert SortedSend(s, a) && SortedSend(s, b) by {
      ReachableKeyInv(cfg, steps);
      assert SendSound(cfg, s, a) && SendSound(cfg, s, b);
    }
    StableResend(cfg, steps, i, j, id);
    SubOrder(CreatedAt(s.rows), a.order, b.order);
  }

  ghost predicate SortedSend(s: State, send: Send) {
    Distinct(send.order) && InOrder(CreatedAt(s.rows), send.order)
  }

  lemma SubOrder(time: map<Id, Instant>, a: seq<Id>, b: seq<Id>)
    requires Distinct(a) && InOrder(time, a) && Distinct(b) && InOrder(time, b)
    ensures a == b <==> forall x :: x in a <==> x in b
  {
    if forall x :: x in a <==> x in b {
      OrderIsUnique(time, a, b, set x | x in a);
    }
  }
}
