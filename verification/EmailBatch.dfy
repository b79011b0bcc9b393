/**
 What a chunk is made of: the claim's selection, its grouping by batch and the slicing, taken together.
 */
module EmailBatch {
  import opened Wrappers
  import opened Ordering
  import opened EmailQueue
  import opened EmailWorker

  // ---------- order ----------

  predicate Precedes(a: Record, b: Record) {
    a.id != b.id && (a.createdAt < b.createdAt || (a.createdAt == b.createdAt && a.id < b.id))
  }

  predicate Ascending(rows: seq<Record>) {
    forall i, j :: 0 <= i < j < |rows| ==> Precedes(rows[i], rows[j])
  }

  lemma AscendingAppend(rows: seq<Record>, r: Record)
    requires Ascending(rows) && forall x <- rows :: Precedes(x, r)
    ensures Ascending(rows + [r])
  {
  }

  lemma {:induction false} WithKeyAscending(rows: seq<Record>, key: GroupKey)
    requires Ascending(rows)
    ensures Ascending(WithKey(rows, key))
    decreases |rows|
  {
    if rows != [] {
      var n := |rows| - 1;
      WithKeyAscending(rows[..n], key);
      WithKeyMembers(rows[..n], key);
      AscendingAppend(WithKey(rows[..n], key), rows[n]);
    }
  }

  lemma {:induction false} RenderedMembers(rows: seq<Record>, renders: Record -> bool, upTo: nat)
    requires upTo <= |rows|
    ensures forall r :: r in RenderedUpTo(rows, renders, upTo) <==> r in rows[..upTo] && renders(r)
    decreases upTo
  {
    if upTo > 0 {
      RenderedMembers(rows, renders, upTo - 1);
      assert rows[..upTo] == rows[..upTo - 1] + [rows[upTo - 1]];
    }
  }

  lemma {:induction false} RenderedAscending(rows: seq<Record>, renders: Record -> bool, upTo: nat)
    requires upTo <= |rows| && Ascending(rows)
    ensures Ascending(RenderedUpTo(rows, renders, upTo))
    decreases upTo
  {
    if upTo > 0 {
      RenderedAscending(rows, renders, upTo - 1);
      RenderedMembers(rows, renders, upTo - 1);
      if renders(rows[upTo - 1]) {
        AscendingAppend(RenderedUpTo(rows, renders, upTo - 1), rows[upTo - 1]);
      }
    }
  }

  lemma {:induction false} AllRendered(rows: seq<Record>, renders: Record -> bool, upTo: nat)
    requires upTo <= |rows| && forall r <- rows :: renders(r)
    ensures RenderedUpTo(rows, renders, upTo) == rows[..upTo]
    decreases upTo
  {
    if upTo > 0 {
      AllRendered(rows, renders, upTo - 1);
      assert rows[..upTo] == rows[..upTo - 1] + [rows[upTo - 1]];
    }
  }

  function IdSeq(rows: seq<Record>): (r: seq<Id>)
    ensures |r| == |rows|
  {
    seq(|rows|, i requires 0 <= i < |rows| => rows[i].id)
  }

  lemma IdSeqLists(rows: seq<Record>)
    requires Ascending(rows)
    ensures Lists(IdSeq(rows), IdsOf(rows))
  {
    var ids := IdSeq(rows);
    assert forall i :: 0 <= i < |rows| ==> ids[i] == rows[i].id;
    forall i, j | 0 <= i < j < |ids|
      ensures ids[i] != ids[j]
    {
      assert Precedes(rows[i], rows[j]);
    }
    forall id
      ensures id in ids <==> id in IdsOf(rows)
    {
      if id in IdsOf(rows) {
        var i :| 0 <= i < |rows| && rows[i].id == id;
        assert ids[i] == id;
      }
    }
  }

  lemma IdSeqInOrder(rows: seq<Record>, time: map<Id, Instant>)
    requires Ascending(rows) && forall r <- rows :: r.id in time && time[r.id] == r.createdAt
    ensures InOrder(time, IdSeq(rows))
  {
    forall i, j | 0 <= i < j < |rows|
      ensures Earlier(time, IdSeq(rows)[i], IdSeq(rows)[j])
    {
      assert Precedes(rows[i], rows[j]);
    }
  }

  lemma {:induction false} IdCount(rows: seq<Record>)
    requires Ascending(rows)
    ensures |IdsOf(rows)| == |rows|
    decreases |rows|
  {
    if rows != [] {
      var n := |rows| - 1;
      IdCount(rows[..n]);
      assert rows[n].id !in IdsOf(rows[..n]) by {
        forall r | r in rows[..n]
          ensures r.id != rows[n].id
        {
          var i :| 0 <= i < n && rows[i] == r;
          assert Precedes(rows[i], rows[n]);
        }
      }
      assert IdsOf(rows) == IdsOf(rows[..n]) + {rows[n].id} by { assert rows == rows[..n] + [rows[n]]; }
    }
  }

  // ---------- a claim's answer ----------

  lemma AnswerFacts(t: Table, request: ClaimRequest, now: Instant, pick: Pick, order: seq<Id>, records: seq<Record>)
    requires Answers(t, request, now, pick, order, records)
    ensures Ascending(records) && IdsOf(records) == DueOf(pick)
    ensures forall r <- records :: r.id in t && r == RecordOf(t, r.id, now, request.replayWindow)
  {
    forall i, j | 0 <= i < j < |records|
      ensures Precedes(records[i], records[j])
    {
      assert Earlier(CreatedAt(t), order[i], order[j]);
    }
    assert forall i :: 0 <= i < |order| ==> records[i].id == order[i];
    forall id | id in DueOf(pick)
      ensures id in IdsOf(records)
    {
      var i :| 0 <= i < |order| && order[i] == id;
      assert records[i].id == id;
    }
  }

  lemma GroupIds(t: Table, request: ClaimRequest, now: Instant, pick: Pick, order: seq<Id>, records: seq<Record>, key: BatchKey)
    requires Answers(t, request, now, pick, order, records)
    ensures IdsOf(WithKey(records, Batch(key))) == ClaimedOf(t, pick, key)
    ensures |WithKey(records, Batch(key))| == |ClaimedOf(t, pick, key)|
    ensures forall r <- WithKey(records, Batch(key)) :: r.unsettledInBatch == Some(|ReplayableIn(t, key, now, request.replayWindow)|)
  {
    var group := WithKey(records, Batch(key));
    AnswerFacts(t, request, now, pick, order, records);
    WithKeyMembers(records, Batch(key));
    WithKeyAscending(records, Batch(key));
    IdCount(group);
    forall id | id in ClaimedOf(t, pick, key)
      ensures id in IdsOf(group)
    {
      var r :| r in records && r.id == id;
      assert GroupKeyOf(r) == Batch(key);
    }
  }

  /**
   A group with a batch key passes as whole exactly when it is the set of all rows of that batch that
   may still be sent, whatever the claim had to skip.
   */
  lemma WholeGroupIsWholeBatch(t: Table, request: ClaimRequest, now: Instant, locked: set<Id>, pick: Pick,
                               order: seq<Id>, records: seq<Record>, key: BatchKey)
    requires IsPick(t, request, now, locked, pick) && Answers(t, request, now, pick, order, records)
    requires WithKey(records, Batch(key)) != []
    ensures var group := WithKey(records, Batch(key));
            IsWhole(group) <==> IdsOf(group) == ReplayableIn(t, key, now, request.replayWindow)
  {
    GroupIds(t, request, now, pick, order, records, key);
    WholeMeansAllReplayable(t, request, now, locked, pick, key);
    var group := WithKey(records, Batch(key));
    assert group[0] in group;
  }

  /** Rows outside any batch always pass: whatever else is claimed or skipped, they are sent. */
  lemma LooseGroupIsWhole(t: Table, request: ClaimRequest, now: Instant, pick: Pick, order: seq<Id>, records: seq<Record>, key: GroupKey)
    requires Answers(t, request, now, pick, order, records) && key.Loose?
    ensures IsWhole(WithKey(records, key))
  {
    WithKeyMembers(records, key);
    AnswerFacts(t, request, now, pick, order, records);
  }

  /** A batch of at most a chunk's size is never split, so its chunk is every row of it that may still be sent. */
  lemma KeyedChunk(t: Table, request: ClaimRequest, now: Instant, locked: set<Id>, pick: Pick,
                   order: seq<Id>, records: seq<Record>, chunk: seq<Record>)
    requires IsPick(t, request, now, locked, pick) && Answers(t, request, now, pick, order, records)
    requires chunk != [] && chunk[0].batchKey.Some? && ChunkOf(records, chunk)
    requires |ReplayableIn(t, chunk[0].batchKey.value, now, request.replayWindow)| <= CHUNK_SIZE
    ensures IdsOf(chunk) == ReplayableIn(t, chunk[0].batchKey.value, now, request.replayWindow)
  {
    var key :| key in KeysOf(records) && IsWhole(WithKey(records, key)) && chunk in Slices(WithKey(records, key));
    var group := WithKey(records, key);
    SlicesPartition(group);
    WithKeyMembers(records, key);
    assert chunk[0] in chunk;
    assert key == Batch(chunk[0].batchKey.value);
    WholeGroupIsWholeBatch(t, request, now, locked, pick, order, records, key.key);
    AnswerFacts(t, request, now, pick, order, records);
    WithKeyAscending(records, key);
    IdCount(group);
    assert Slices(group) == [group];
  }

  /** Every chunk of a claim: sorted, of one group, and not too long. */
  lemma ChunkFacts(records: seq<Record>, chunk: seq<Record>)
    requires Ascending(records) && ChunkOf(records, chunk)
    ensures 0 < |chunk| <= CHUNK_SIZE && Ascending(chunk)
    ensures forall r <- chunk :: r in records && GroupKeyOf(r) == GroupKeyOf(chunk[0])
  {
    var key :| key in KeysOf(records) && IsWhole(WithKey(records, key)) && chunk in Slices(WithKey(records, key));
    SlicesPartition(WithKey(records, key));
    WithKeyMembers(records, key);
    WithKeyAscending(records, key);
    SliceAscending(WithKey(records, key), chunk);
    assert chunk[0] in chunk;
  }

  lemma {:induction false} SliceAscending(group: seq<Record>, chunk: seq<Record>)
    requires Ascending(group) && chunk in Slices(group)
    ensures Ascending(chunk)
    decreases |group|
  {
    if |group| > CHUNK_SIZE && chunk != group[..CHUNK_SIZE] {
      SliceAscending(group[CHUNK_SIZE..], chunk);
    }
  }
}
