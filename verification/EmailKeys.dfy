/**
 The size of a batch, over every run, late workers included: a key is only ever on messages it was made
 from, and those fit one chunk.  So a claimed batch is sent whole, never sliced.
 */
module EmailKeys {
  import opened Wrappers
  import opened Ordering
  import opened EmailQueue
  import opened EmailWorker
  import opened EmailBatch
  import opened EmailSystem
  import opened EmailResend

  ghost predicate KeysFit(t: Table) {
    forall id :: id in t && t[id].batchKey.Some? ==>
      id in t[id].batchKey.value.ids && |t[id].batchKey.value.ids| <= CHUNK_SIZE
  }

  ghost predicate AllKeysFit(s: State) {
    KeysFit(s.rows) && forall c :: 0 <= c < |s.claims| ==> KeysFit(s.claims[c].table)
  }

  /** The key a chunk is assigned was made from a chunk that has all its entries. */
  lemma AssignedKeyFits(cfg: Config, log: ClaimLog, chunk: seq<Record>)
    requires LogSound(cfg, log) && KeysFit(log.table) && ChunkOf(log.records, chunk) && Entries(cfg, chunk) != []
    ensures var entries := Entries(cfg, chunk);
            IdsOf(entries) <= ChunkBatchKey(entries).ids && |ChunkBatchKey(entries).ids| <= CHUNK_SIZE
  {
    var entries := Entries(cfg, chunk);
    EntriesOfChunk(cfg, log, chunk);
    AnswerFacts(log.table, cfg.request, log.at, log.pick, log.order, log.records);
    IdCount(entries);
    assert entries[0] in entries;
    forall id | id in IdsOf(entries)
      ensures id in ChunkBatchKey(entries).ids
    {
      var r :| r in entries && r.id == id;
      assert r == RecordOf(log.table, r.id, log.at, cfg.request.replayWindow);
    }
  }

  lemma AssignKeysFit(t: Table, entries: seq<Record>, key: BatchKey)
    requires KeysFit(t) && IdsOf(entries) <= key.ids && |key.ids| <= CHUNK_SIZE
    ensures KeysFit(AssignBatch(t, Leases(entries), key))
  {
    var u := AssignBatch(t, Leases(entries), key);
    forall id | id in u && id in WrittenRows(t, Leases(entries))
      ensures id in key.ids
    {
      var r :| r in entries && KeyOf(r) == LeaseKey(id, t[id].attempts);
      assert r.id in IdsOf(entries);
    }
  }

  lemma StepKeysFit(cfg: Config, s: State, step: Step)
    requires Inv(cfg, s) && AllKeysFit(s) && Enabled(cfg, s, step)
    ensures AllKeysFit(Apply(cfg, s, step))
  {
    if step.Assign? {
      var entries := Entries(cfg, step.chunk);
      assert LogSound(cfg, s.claims[step.claim]) && KeysFit(s.claims[step.claim].table);
      AssignedKeyFits(cfg, s.claims[step.claim], step.chunk);
      AssignKeysFit(s.rows, entries, ChunkBatchKey(entries));
    } else {
      OtherSameKeys(cfg, s, step);
    }
  }

  lemma {:induction false} RunKeysFit(cfg: Config, s: State, steps: seq<Step>)
    requires Inv(cfg, s) && AllKeysFit(s) && ValidRun(cfg, s, steps)
    ensures Inv(cfg, Run(cfg, s, steps)) && AllKeysFit(Run(cfg, s, steps))
    decreases |steps|
  {
    if steps != [] {
      StepInv(cfg, s, steps[0]);
      StepKeysFit(cfg, s, steps[0]);
      RunKeysFit(cfg, Apply(cfg, s, steps[0]), steps[1..]);
    }
  }

  /** The messages that carry a key. */
  function Holders(t: Table, key: BatchKey): set<Id> {
    set id | id in t && t[id].batchKey == Some(key)
  }

  lemma HoldersFit(t: Table, key: BatchKey)
    requires KeysFit(t)
    ensures |Holders(t, key)| <= CHUNK_SIZE
  {
    if Holders(t, key) != {} {
      var id :| id in Holders(t, key);
      assert Holders(t, key) <= key.ids;
      SubsetSize(Holders(t, key), key.ids);
    }
  }

  /** Over every run no key is on more than a hundred messages. */
  lemma BatchFitsAChunk(cfg: Config, steps: seq<Step>, key: BatchKey)
    requires ValidRun(cfg, START, steps)
    ensures |Holders(Run(cfg, START, steps).rows, key)| <= CHUNK_SIZE
  {
    RunKeysFit(cfg, START, steps);
    HoldersFit(Run(cfg, START, steps).rows, key);
  }

  /**
   Over every run, a chunk that carries a key is exactly the messages of that batch that were pending, or
   dead within the window, at its claim, whatever the claim had to skip.
   */
  lemma BatchIsSentWhole(cfg: Config, steps: seq<Step>, c: nat, chunk: seq<Record>)
    requires ValidRun(cfg, START, steps) && c < |Run(cfg, START, steps).claims|
    requires chunk != [] && chunk[0].batchKey.Some? && ChunkOf(Run(cfg, START, steps).claims[c].records, chunk)
    ensures IdsOf(chunk) == Sendable(cfg, Run(cfg, START, steps).claims[c], chunk[0].batchKey.value)
  {
    RunKeysFit(cfg, START, steps);
    var log, key := Run(cfg, START, steps).claims[c], chunk[0].batchKey.value;
    assert LogSound(cfg, log) && KeysFit(log.table);
    HoldersFit(log.table, key);
    SubsetSize(Sendable(cfg, log, key), Holders(log.table, key));
    KeyedChunk(log.table, cfg.request, log.at, log.locked, log.pick, log.order, log.records, chunk);
  }
}
