/**
 The email delivery worker: how a claim is grouped into chunks, how long it keeps sending, and what
 becomes of each row of a chunk.
 */
module EmailWorker {
  import opened Wrappers
  import opened Ordering
  import opened Jitter
  import opened EmailQueue

  const CHUNK_SIZE := 100
  const MAX_CHUNKS_PER_CLAIM := 3
  const MAX_ATTEMPTS := 4
  const STILL_PROCESSING_RETRY_SECONDS := 60
  const SEND_TIMEOUT_SECONDS := 30
  const SETTLE_MARGIN_SECONDS := 15

  // ---------- lists ----------

  function Flat<T>(lists: seq<seq<T>>): seq<T> {
    if lists == [] then [] else lists[0] + Flat(lists[1..])
  }

  lemma {:induction false} FlatAppend<T>(a: seq<seq<T>>, b: seq<seq<T>>)
    ensures Flat(a + b) == Flat(a) + Flat(b)
    decreases |a|
  {
    if a == [] {
      assert a + b == b;
    } else {
      FlatAppend(a[1..], b);
      assert (a + b)[1..] == a[1..] + b;
    }
  }

  lemma {:induction false} FlatUpdate<T>(lists: seq<seq<T>>, i: nat, x: T)
    requires i < |lists|
    ensures multiset(Flat(lists[i := lists[i] + [x]])) == multiset(Flat(lists)) + multiset{x}
    decreases |lists|
  {
    var after := lists[i := lists[i] + [x]];
    if i == 0 {
      assert after[1..] == lists[1..];
    } else {
      FlatUpdate(lists[1..], i - 1, x);
      assert after[1..] == lists[1..][i - 1 := lists[1..][i - 1] + [x]];
    }
  }

  // ---------- grouping ----------

  /** Rows that carry a batch key go with their batch, the others with rows of their kind and history. */
  datatype GroupKey = Batch(key: BatchKey) | Loose(kind: Kind, template: string, dead: bool, attempts: int)

  function GroupKeyOf(r: Record): GroupKey {
    if r.batchKey.Some? then Batch(r.batchKey.value)
    else Loose(r.kind, r.template.GetOr(""), r.status.Dead?, r.attempts)
  }

  /** The keys in order of first appearance. */
  function KeysOf(rows: seq<Record>): seq<GroupKey> {
    if rows == [] then []
    else
      var n := |rows| - 1;
      var keys := KeysOf(rows[..n]);
      if GroupKeyOf(rows[n]) in keys then keys else keys + [GroupKeyOf(rows[n])]
  }

  function WithKey(rows: seq<Record>, key: GroupKey): seq<Record> {
    if rows == [] then []
    else
      var n := |rows| - 1;
      WithKey(rows[..n], key) + (if GroupKeyOf(rows[n]) == key then [rows[n]] else [])
  }

  function Groups(rows: seq<Record>): (r: seq<seq<Record>>)
    ensures |r| == |KeysOf(rows)|
  {
    var keys := KeysOf(rows);
    seq(|keys|, i requires 0 <= i < |keys| => WithKey(rows, keys[i]))
  }

  lemma {:induction false} KeysOfRows(rows: seq<Record>)
    ensures Distinct(KeysOf(rows))
    ensures forall key :: key in KeysOf(rows) <==> exists r <- rows :: GroupKeyOf(r) == key
    ensures forall key :: key !in KeysOf(rows) ==> WithKey(rows, key) == []
    decreases |rows|
  {
    if rows != [] {
      var n := |rows| - 1;
      KeysOfRows(rows[..n]);
      assert rows == rows[..n] + [rows[n]];
    }
  }

  /** Rows of one key make one group. */
  lemma {:induction false} OneGroup(rows: seq<Record>, key: GroupKey)
    requires rows != [] && forall r <- rows :: GroupKeyOf(r) == key
    ensures KeysOf(rows) == [key] && WithKey(rows, key) == rows
    decreases |rows|
  {
    var n := |rows| - 1;
    assert rows == rows[..n] + [rows[n]];
    if n > 0 { OneGroup(rows[..n], key); }
  }

  lemma {:induction false} WithKeyMembers(rows: seq<Record>, key: GroupKey)
    ensures forall r :: r in WithKey(rows, key) <==> r in rows && GroupKeyOf(r) == key
    decreases |rows|
  {
    if rows != [] {
      var n := |rows| - 1;
      WithKeyMembers(rows[..n], key);
      assert rows == rows[..n] + [rows[n]];
    }
  }

  /** Rows of one batch, or rows outside any batch of one kind, template, lane and number of attempts. */
  ghost predicate Alike(a: Record, b: Record) {
    if a.batchKey.Some? || b.batchKey.Some? then a.batchKey == b.batchKey
    else
      && a.kind == b.kind && a.template.GetOr("") == b.template.GetOr("")
      && (a.status.Dead? <==> b.status.Dead?) && a.attempts == b.attempts
  }

  /** Two rows share a group exactly when they are alike. */
  lemma GroupedExactlyAlike(rows: seq<Record>, a: Record, b: Record)
    requires a in rows && b in rows
    ensures (exists group <- Groups(rows) :: a in group && b in group) <==> Alike(a, b)
  {
    KeysOfRows(rows);
    var keys, groups := KeysOf(rows), Groups(rows);
    forall i | 0 <= i < |groups|
      ensures a in groups[i] && b in groups[i] <==> GroupKeyOf(a) == keys[i] == GroupKeyOf(b)
    {
      WithKeyMembers(rows, keys[i]);
    }
    assert GroupKeyOf(a) in keys;
    if GroupKeyOf(a) == GroupKeyOf(b) {
      var i :| 0 <= i < |keys| && keys[i] == GroupKeyOf(a);
      assert groups[i] in groups;
    }
  }

  /** One more row joins the group of its key, or starts a new last group. */
  lemma GroupsGrow(rows: seq<Record>, r: Record)
    ensures var keys, groups, after := KeysOf(rows), Groups(rows), Groups(rows + [r]);
      && (GroupKeyOf(r) !in keys ==> after == groups + [[r]])
      && (forall i :: 0 <= i < |keys| && keys[i] == GroupKeyOf(r) ==> after == groups[i := groups[i] + [r]])
  {
    var all := rows + [r];
    assert all[..|all| - 1] == rows;
    KeysOfRows(rows);
    var keys, groups, after := KeysOf(rows), Groups(rows), Groups(all);
    forall i | 0 <= i < |keys|
      ensures after[i] == if keys[i] == GroupKeyOf(r) then groups[i] + [r] else groups[i]
    {
      assert KeysOf(all)[i] == keys[i];
    }
    if GroupKeyOf(r) !in keys {
      assert KeysOf(all) == keys + [GroupKeyOf(r)];
      assert WithKey(all, GroupKeyOf(r)) == [r];
      assert after == groups + [[r]];
    }
  }

  /** Grouping loses no row and invents none. */
  lemma {:induction false} GroupsPartition(rows: seq<Record>)
    ensures multiset(Flat(Groups(rows))) == multiset(rows)
    decreases |rows|
  {
    if rows != [] {
      var n := |rows| - 1;
      var before, r := rows[..n], rows[n];
      assert rows == before + [r];
      GroupsPartition(before);
      GroupsGrow(before, r);
      if GroupKeyOf(r) in KeysOf(before) {
        var i :| 0 <= i < |KeysOf(before)| && KeysOf(before)[i] == GroupKeyOf(r);
        FlatUpdate(Groups(before), i, r);
      } else {
        FlatAppend(Groups(before), [[r]]);
        assert Flat([[r]]) == [r] by { assert [[r]][1..] == []; }
      }
    }
  }

  method GroupRows(rows: seq<Record>) returns (groups: seq<seq<Record>>)
    ensures groups == Groups(rows)
  {
    // An insertion-ordered map: its keys in order, and its buckets.
    var keys: seq<GroupKey> := [];
    var buckets: map<GroupKey, seq<Record>> := map[];
    for i := 0 to |rows|
      invariant keys == KeysOf(rows[..i])
      invariant forall key :: key in buckets <==> key in keys
      invariant forall key <- keys :: buckets[key] == WithKey(rows[..i], key)
    {
      var r := rows[i];
      assert rows[..i + 1] == rows[..i] + [r];
      assert rows[..i + 1][..i] == rows[..i];
      KeysOfRows(rows[..i]);
      var key := GroupKeyOf(r);
      if key in buckets {
        buckets := buckets[key := buckets[key] + [r]];
      } else {
        keys := keys + [key];
        buckets := buckets[key := [r]];
      }
    }
    assert rows[..|rows|] == rows;
    groups := seq(|keys|, i requires 0 <= i < |keys| && keys[i] in buckets => buckets[keys[i]]);
  }

  /** A group was claimed whole when it is as large as each of its rows' batch was at the claim. */
  predicate IsWhole(group: seq<Record>) {
    forall r <- group :: |group| >= r.unsettledInBatch.GetOr(0)
  }

  // ---------- chunks ----------

  function Slices(group: seq<Record>): seq<seq<Record>> {
    if group == [] then []
    else if |group| <= CHUNK_SIZE then [group]
    else [group[..CHUNK_SIZE]] + Slices(group[CHUNK_SIZE..])
  }

  lemma {:induction false} SlicesPartition(group: seq<Record>)
    ensures Flat(Slices(group)) == group
    ensures forall c <- Slices(group) :: 0 < |c| <= CHUNK_SIZE && forall r <- c :: r in group
    ensures forall i :: 0 <= i < |Slices(group)| - 1 ==> |Slices(group)[i]| == CHUNK_SIZE
    decreases |group|
  {
    if |group| > CHUNK_SIZE {
      SlicesPartition(group[CHUNK_SIZE..]);
      assert group == group[..CHUNK_SIZE] + group[CHUNK_SIZE..];
      assert Slices(group)[1..] == Slices(group[CHUNK_SIZE..]);
      assert forall i :: 1 <= i < |Slices(group)| ==> Slices(group)[i] == Slices(group)[1..][i - 1];
    } else if group != [] {
      assert [group][1..] == [];
    }
  }

  /** `chunk` is one of those a claim of `rows` is sent in. */
  ghost predicate ChunkOf(rows: seq<Record>, chunk: seq<Record>) {
    exists key :: key in KeysOf(rows) && IsWhole(WithKey(rows, key)) && chunk in Slices(WithKey(rows, key))
  }

  function Chunks(groups: seq<seq<Record>>): seq<seq<Record>> {
    if groups == [] then []
    else (if IsWhole(groups[0]) then Slices(groups[0]) else []) + Chunks(groups[1..])
  }

  function Incomplete(groups: seq<seq<Record>>): seq<Record> {
    if groups == [] then []
    else (if IsWhole(groups[0]) then [] else groups[0]) + Incomplete(groups[1..])
  }

  lemma {:induction false} ChunksPartition(groups: seq<seq<Record>>)
    ensures multiset(Flat(Chunks(groups))) + multiset(Incomplete(groups)) == multiset(Flat(groups))
    decreases |groups|
  {
    if groups != [] {
      ChunksPartition(groups[1..]);
      SlicesPartition(groups[0]);
      FlatAppend(if IsWhole(groups[0]) then Slices(groups[0]) else [], Chunks(groups[1..]));
    }
  }

  lemma {:induction false} IncompleteMembers(groups: seq<seq<Record>>, r: Record)
    ensures r in Incomplete(groups) <==> exists group <- groups :: !IsWhole(group) && r in group
    decreases |groups|
  {
    if groups != [] {
      IncompleteMembers(groups[1..], r);
      assert groups == [groups[0]] + groups[1..];
    }
  }

  /** A row goes back unsent exactly when its group was not claimed whole. */
  lemma IncompleteExactly(rows: seq<Record>, r: Record)
    ensures r in Incomplete(Groups(rows)) <==> r in rows && !IsWhole(WithKey(rows, GroupKeyOf(r)))
  {
    var keys, groups := KeysOf(rows), Groups(rows);
    KeysOfRows(rows);
    IncompleteMembers(groups, r);
    forall i | 0 <= i < |groups|
      ensures r in groups[i] <==> r in rows && GroupKeyOf(r) == keys[i]
    {
      WithKeyMembers(rows, keys[i]);
    }
    if r in rows {
      assert GroupKeyOf(r) in keys;
      var i :| 0 <= i < |keys| && keys[i] == GroupKeyOf(r);
      assert groups[i] in groups && groups[i] == WithKey(rows, GroupKeyOf(r));
    }
  }

  lemma {:induction false} ChunkHasGroup(groups: seq<seq<Record>>, c: seq<Record>) returns (i: nat)
    requires c in Chunks(groups)
    ensures i < |groups| && IsWhole(groups[i]) && c in Slices(groups[i])
    decreases |groups|
  {
    if IsWhole(groups[0]) && c in Slices(groups[0]) {
      i := 0;
    } else {
      i := ChunkHasGroup(groups[1..], c);
      i := i + 1;
    }
  }

  lemma ChunksAreChunks(rows: seq<Record>, c: seq<Record>)
    requires c in Chunks(Groups(rows))
    ensures 0 < |c| <= CHUNK_SIZE && ChunkOf(rows, c)
  {
    var i := ChunkHasGroup(Groups(rows), c);
    SlicesPartition(Groups(rows)[i]);
    assert Groups(rows)[i] == WithKey(rows, KeysOf(rows)[i]);
  }

  // ---------- one drain ----------

  function UnitsWithinLease(leaseSeconds: int): int {
    var units := (leaseSeconds - SETTLE_MARGIN_SECONDS) / SEND_TIMEOUT_SECONDS;
    if units < 1 then 1 else units
  }

  function ClaimLimit(leaseSeconds: int): int {
    var units := UnitsWithinLease(leaseSeconds);
    (if units < MAX_CHUNKS_PER_CLAIM then units else MAX_CHUNKS_PER_CLAIM) * CHUNK_SIZE
  }

  /** The lease read at `claimMs` still covers a full send and the settle margin at `nowMs`. */
  predicate CoversNextUnit(claimMs: int, leaseSeconds: int, nowMs: int) {
    claimMs + leaseSeconds * 1000 - nowMs >= (SEND_TIMEOUT_SECONDS + SETTLE_MARGIN_SECONDS) * 1000
  }

  /** A claim is limited to as many full chunks, three at most, as can be sent within the lease; one always counts. */
  lemma ClaimLimitIsLargest(leaseSeconds: int, chunks: nat)
    ensures chunks * CHUNK_SIZE <= ClaimLimit(leaseSeconds) <==>
            chunks <= 3 && (chunks <= 1 || chunks * 30 + 15 <= leaseSeconds)
  {
  }

  /** The lease covers a chunk exactly when any send within the timeout ends before the settle margin. */
  lemma CoversExactly(claimMs: int, leaseSeconds: int, nowMs: int)
    ensures CoversNextUnit(claimMs, leaseSeconds, nowMs) <==>
            forall endMs :: nowMs <= endMs <= nowMs + 30_000 ==> EndsInTime(claimMs, leaseSeconds, endMs)
  {
    assert EndsInTime(claimMs, leaseSeconds, nowMs + 30_000) <==> CoversNextUnit(claimMs, leaseSeconds, nowMs);
  }

  predicate EndsInTime(claimMs: int, leaseSeconds: int, endMs: int) {
    endMs + 15_000 <= claimMs + leaseSeconds * 1000
  }

  /** Sends chunks while the lease covers them; the rest goes back.  `stopping` and `clockMs` are read before each chunk. */
  method SendWhileCovered(chunks: seq<seq<Record>>, claimMs: int, leaseSeconds: int, stopping: nat -> bool, clockMs: nat -> int)
    returns (sent: seq<seq<Record>>, tail: seq<Record>)
    ensures sent <= chunks && tail == Flat(chunks[|sent|..])
    ensures forall i: nat :: i < |sent| ==> !stopping(i) && (i > 0 ==> CoversNextUnit(claimMs, leaseSeconds, clockMs(i)))
    ensures |sent| < |chunks| ==> stopping(|sent|) || (sent != [] && !CoversNextUnit(claimMs, leaseSeconds, clockMs(|sent|)))
  {
    sent := [];
    while |sent| < |chunks|
      invariant sent <= chunks
      invariant forall i: nat :: i < |sent| ==> !stopping(i) && (i > 0 ==> CoversNextUnit(claimMs, leaseSeconds, clockMs(i)))
      decreases |chunks| - |sent|
    {
      var index := |sent|;
      if stopping(index) || (index > 0 && !CoversNextUnit(claimMs, leaseSeconds, clockMs(index))) {
        tail := Flat(chunks[index..]);
        return;
      }
      sent := sent + [chunks[index]];
    }
    tail := [];
    assert chunks[|sent|..] == [];
  }

  lemma DrainPartition(rows: seq<Record>, sent: seq<seq<Record>>, rest: seq<seq<Record>>)
    requires Chunks(Groups(rows)) == sent + rest
    ensures multiset(rows) == multiset(Incomplete(Groups(rows))) + multiset(Flat(sent)) + multiset(Flat(rest))
    ensures forall c <- sent :: 0 < |c| <= CHUNK_SIZE && ChunkOf(rows, c)
  {
    GroupsPartition(rows);
    ChunksPartition(Groups(rows));
    FlatAppend(sent, rest);
    forall c | c in sent
      ensures 0 < |c| <= CHUNK_SIZE && ChunkOf(rows, c)
    {
      ChunksAreChunks(rows, c);
    }
  }

  /** What one drain does with the rows it claimed: incomplete batches go back before anything is sent. */
  method DrainOnce(rows: seq<Record>, claimMs: int, leaseSeconds: int, stopping: nat -> bool, clockMs: nat -> int)
    returns (incomplete: seq<Record>, sent: seq<seq<Record>>, tail: seq<Record>)
    ensures multiset(rows) == multiset(incomplete) + multiset(Flat(sent)) + multiset(tail)
    ensures forall r :: r in incomplete <==> r in rows && !IsWhole(WithKey(rows, GroupKeyOf(r)))
    ensures forall c <- sent :: 0 < |c| <= CHUNK_SIZE && ChunkOf(rows, c)
    ensures forall i: nat :: i < |sent| ==> !stopping(i) && (i > 0 ==> CoversNextUnit(claimMs, leaseSeconds, clockMs(i)))
    ensures tail != [] ==> stopping(|sent|) || (sent != [] && !CoversNextUnit(claimMs, leaseSeconds, clockMs(|sent|)))
  {
    var groups := GroupRows(rows);
    incomplete := Incomplete(groups);
    var chunks := Chunks(groups);
    sent, tail := SendWhileCovered(chunks, claimMs, leaseSeconds, stopping, clockMs);
    DrainPartition(rows, sent, chunks[|sent|..]);
    forall r
      ensures r in incomplete <==> r in rows && !IsWhole(WithKey(rows, GroupKeyOf(r)))
    {
      IncompleteExactly(rows, r);
    }
  }

  // ---------- one chunk ----------

  datatype ErrorKind = Retryable | InFlight | Conflict | Rejection

  /** What the provider answered.  `errors` is by position in the chunk. */
  datatype BatchResult = Refused(kind: ErrorKind, error: string) | Accepted(errors: map<nat, string>, data: Option<seq<string>>)

  datatype Call =
    | FailCall(rows: seq<Record>, failure: Failure)
    | SentCall(rows: seq<Record>, providerIds: map<Id, string>)
    | ReleaseCall(rows: seq<Record>, delaySeconds: nat)

  function RowsOf(calls: seq<Call>): seq<Record> {
    if calls == [] then [] else RowsOf(calls[..|calls| - 1]) + calls[|calls| - 1].rows
  }

  lemma RowsOfAppend(calls: seq<Call>, call: Call)
    ensures RowsOf(calls + [call]) == RowsOf(calls) + call.rows
  {
    assert (calls + [call])[..|calls|] == calls;
  }

  lemma {:induction false} RowsOfConcat(a: seq<Call>, b: seq<Call>)
    ensures RowsOf(a + b) == RowsOf(a) + RowsOf(b)
    decreases |b|
  {
    if b == [] {
      assert a + b == a;
    } else {
      RowsOfConcat(a, b[..|b| - 1]);
      RowsOfLonger(a, b[..|b| - 1], b[|b| - 1]);
      assert b == b[..|b| - 1] + [b[|b| - 1]];
    }
  }

  lemma RowsOfLonger(a: seq<Call>, b: seq<Call>, last: Call)
    requires RowsOf(a + b) == RowsOf(a) + RowsOf(b)
    ensures RowsOf(a + (b + [last])) == RowsOf(a) + RowsOf(b + [last])
  {
    RowsOfAppend(a + b, last);
    RowsOfAppend(b, last);
    assert a + (b + [last]) == (a + b) + [last];
  }

  /** The rows among the first `upTo` that render. */
  function RenderedUpTo(rows: seq<Record>, renders: Record -> bool, upTo: nat): (r: seq<Record>)
    requires upTo <= |rows|
    ensures forall x <- r :: renders(x)
  {
    if upTo == 0 then []
    else RenderedUpTo(rows, renders, upTo - 1) + (if renders(rows[upTo - 1]) then [rows[upTo - 1]] else [])
  }

  function Rendered(rows: seq<Record>, renders: Record -> bool): seq<Record> {
    RenderedUpTo(rows, renders, |rows|)
  }

  function IdsOf(rows: seq<Record>): set<Id> {
    set r | r in rows :: r.id
  }

  /** A chunk that carries a batch key keeps it, any other gets the digest of its ids. */
  function ChunkBatchKey(chunk: seq<Record>): BatchKey
    requires chunk != []
  {
    chunk[0].batchKey.GetOr(KeyFor(IdsOf(chunk)))
  }

  function MaxAttempts(chunk: seq<Record>): (most: int)
    requires chunk != []
    ensures exists r <- chunk :: r.attempts == most
    ensures forall r <- chunk :: r.attempts <= most
  {
    if |chunk| == 1 then chunk[0].attempts
    else
      var rest := MaxAttempts(chunk[1..]);
      if chunk[0].attempts < rest then rest else chunk[0].attempts
  }

  predicate AnyDead(chunk: seq<Record>) {
    exists r <- chunk :: r.status.Dead?
  }

  /** With so few attempts before death the retry delay is always a number. */
  lemma EmailScheduleDefined(attempts: int, wasDead: bool, deadRetry: nat, sample: real)
    requires 0.0 <= sample < 1.0
    ensures Schedule(attempts, FailurePolicy(wasDead, MAX_ATTEMPTS, deadRetry), sample).Some?
  {
    if attempts < MAX_ATTEMPTS {
      OverflowRange(attempts);
      RetryWithinBounds(attempts, sample);
    }
  }

  /** One failure for the whole chunk: the most tried row decides, and one dead row makes all of them dead. */
  function FailureOfChunk(chunk: seq<Record>, lastError: string, deadRetry: nat, sample: real): (r: Failure)
    requires chunk != [] && 0.0 <= sample < 1.0
    ensures r.Retry? && r.lastError == lastError
    ensures r.dead <==> exists row <- chunk :: row.status.Dead? || row.attempts >= MAX_ATTEMPTS
    ensures r.dead ==> r.retryAfter == deadRetry
    ensures !r.dead ==> RetryAfterSeconds(MaxAttempts(chunk), sample).Some?
                        && r.retryAfter == RetryAfterSeconds(MaxAttempts(chunk), sample).value * SECOND
  {
    EmailScheduleDefined(MaxAttempts(chunk), AnyDead(chunk), deadRetry, sample);
    var s := Schedule(MaxAttempts(chunk), FailurePolicy(AnyDead(chunk), MAX_ATTEMPTS, deadRetry), sample).value;
    Retry(lastError, s.dead, s.retryAfter)
  }

  /** A failure call retries only as its whole chunk decides. */
  predicate LegalCall(call: Call) {
    call.FailCall? && call.failure.Retry? ==>
      call.rows != [] && (call.failure.dead <==> exists r <- call.rows :: r.status.Dead? || r.attempts >= MAX_ATTEMPTS)
  }

  /**
   What a worker may say about a row.  It releases any row and fails one that does not render; it marks a
   row sent, retries it or fails it otherwise only after the row was handed to the provider.
   */
  predicate CallAllowed(call: Call, r: Record, renders: Record -> bool, handed: bool) {
    && r in call.rows && LegalCall(call)
    && (call.FailCall? && call.failure.Final? && renders(r) ==> handed)
    && (call.SentCall? || (call.FailCall? && call.failure.Retry?) ==> handed && renders(r))
  }

  /** A failure that ends retrying exhausts a row, unless its death was announced before. */
  predicate Exhausts(record: Record, failure: Failure) {
    !(failure.Retry? && !failure.dead) && !record.status.Dead?
  }

  function ConflictError(error: string): string {
    error + " (the provider already holds a different payload under this key; not resent to avoid a duplicate)"
  }

  /** Rows that cannot be rendered are failed one by one; the others make the chunk. */
  function RenderFailures(rows: seq<Record>, renders: Record -> bool, upTo: nat): (r: seq<Call>)
    requires upTo <= |rows|
    ensures forall call <- r :: call.FailCall? && call.failure.Final? && forall x <- call.rows :: !renders(x)
  {
    if upTo == 0 then []
    else
      var before, row := RenderFailures(rows, renders, upTo - 1), rows[upTo - 1];
      if renders(row) then before else before + [FailCall([row], Final("render failed"))]
  }

  /** The two shares of a list after one more element, whichever share it joined. */
  ghost predicate OneMore<T>(a: seq<T>, b: seq<T>, a2: seq<T>, b2: seq<T>, x: T) {
    (a2 == a + [x] && b2 == b) || (a2 == a && b2 == b + [x])
  }

  /** `a` and `b` share out the first `n` elements. */
  ghost predicate ShareOut<T>(a: seq<T>, b: seq<T>, whole: seq<T>, n: nat) {
    n <= |whole| && multiset(a) + multiset(b) == multiset(whole[..n])
  }

  lemma ShareOne<T>(a: seq<T>, b: seq<T>, a2: seq<T>, b2: seq<T>, whole: seq<T>, n: nat)
    requires n < |whole| && ShareOut(a, b, whole, n) && OneMore(a, b, a2, b2, whole[n])
    ensures ShareOut(a2, b2, whole, n + 1)
  {
    assert whole[..n + 1] == whole[..n] + [whole[n]];
  }

  /** Two lists that grow one element at a time share out what they grew by. */
  lemma {:induction false} ShareAll<T>(a: nat -> seq<T>, b: nat -> seq<T>, whole: seq<T>, n: nat)
    requires n <= |whole| && a(0) == [] && b(0) == []
    requires forall k :: 0 <= k < n ==> OneMore(a(k), b(k), a(k + 1), b(k + 1), whole[k])
    ensures ShareOut(a(n), b(n), whole, n)
  {
    if n > 0 {
      ShareAll(a, b, whole, n - 1);
      ShareOne(a(n - 1), b(n - 1), a(n), b(n), whole, n - 1);
    }
  }

  lemma RenderOneMore(rows: seq<Record>, renders: Record -> bool, n: nat)
    requires n < |rows|
    ensures OneMore(RenderedUpTo(rows, renders, n), RowsOf(RenderFailures(rows, renders, n)),
                    RenderedUpTo(rows, renders, n + 1), RowsOf(RenderFailures(rows, renders, n + 1)), rows[n])
  {
    RowsOfAppend(RenderFailures(rows, renders, n), FailCall([rows[n]], Final("render failed")));
  }

  function RenderedAt(rows: seq<Record>, renders: Record -> bool): nat -> seq<Record> {
    (k: nat) => if k <= |rows| then RenderedUpTo(rows, renders, k) else []
  }

  function FailedAt(rows: seq<Record>, renders: Record -> bool): nat -> seq<Record> {
    (k: nat) => if k <= |rows| then RowsOf(RenderFailures(rows, renders, k)) else []
  }

  lemma RenderStep(rows: seq<Record>, renders: Record -> bool, k: nat)
    requires k < |rows|
    ensures OneMore(RenderedAt(rows, renders)(k), FailedAt(rows, renders)(k),
                    RenderedAt(rows, renders)(k + 1), FailedAt(rows, renders)(k + 1), rows[k])
  {
    RenderOneMore(rows, renders, k);
  }

  lemma RenderingPartitions(rows: seq<Record>, renders: Record -> bool)
    ensures multiset(Rendered(rows, renders)) + multiset(RowsOf(RenderFailures(rows, renders, |rows|))) == multiset(rows)
  {
    forall k | 0 <= k < |rows|
      ensures OneMore(RenderedAt(rows, renders)(k), FailedAt(rows, renders)(k),
                      RenderedAt(rows, renders)(k + 1), FailedAt(rows, renders)(k + 1), rows[k])
    {
      RenderStep(rows, renders, k);
    }
    ShareAll(RenderedAt(rows, renders), FailedAt(rows, renders), rows, |rows|);
    assert rows[..|rows|] == rows;
  }

  method RenderAll(claimed: seq<Record>, renders: Record -> bool) returns (chunk: seq<Record>, calls: seq<Call>)
    ensures chunk == Rendered(claimed, renders) && calls == RenderFailures(claimed, renders, |claimed|)
  {
    chunk, calls := [], [];
    for i := 0 to |claimed|
      invariant chunk == RenderedUpTo(claimed, renders, i) && calls == RenderFailures(claimed, renders, i)
    {
      assert claimed[i] == claimed[(i + 1) - 1];
      if renders(claimed[i]) {
        chunk := chunk + [claimed[i]];
      } else {
        calls := calls + [FailCall([claimed[i]], Final("render failed"))];
      }
    }
  }

  /** Rows the provider reported are failed one by one, the others are marked sent together. */
  function ReportedFailures(chunk: seq<Record>, errors: map<nat, string>, upTo: nat): (r: seq<Call>)
    requires upTo <= |chunk|
    ensures forall call <- r :: call.FailCall? && call.failure.Final?
  {
    if upTo == 0 then []
    else
      var before, i := ReportedFailures(chunk, errors, upTo - 1), upTo - 1;
      if i in errors then before + [FailCall([chunk[i]], Final(errors[i]))] else before
  }

  function Unfailed(chunk: seq<Record>, errors: map<nat, string>, upTo: nat): (r: seq<Record>)
    requires upTo <= |chunk|
    ensures forall x <- r :: x in chunk
  {
    if upTo == 0 then []
    else
      var before := Unfailed(chunk, errors, upTo - 1);
      if upTo - 1 in errors then before else before + [chunk[upTo - 1]]
  }

  lemma ReportOneMore(chunk: seq<Record>, errors: map<nat, string>, n: nat)
    requires n < |chunk|
    ensures OneMore(Unfailed(chunk, errors, n), RowsOf(ReportedFailures(chunk, errors, n)),
                    Unfailed(chunk, errors, n + 1), RowsOf(ReportedFailures(chunk, errors, n + 1)), chunk[n])
  {
    if n in errors { RowsOfAppend(ReportedFailures(chunk, errors, n), FailCall([chunk[n]], Final(errors[n]))); }
  }

  lemma ReportPartitions(chunk: seq<Record>, errors: map<nat, string>)
    ensures multiset(Unfailed(chunk, errors, |chunk|)) + multiset(RowsOf(ReportedFailures(chunk, errors, |chunk|))) == multiset(chunk)
  {
    var sent := (k: nat) => if k <= |chunk| then Unfailed(chunk, errors, k) else [];
    var failed := (k: nat) => if k <= |chunk| then RowsOf(ReportedFailures(chunk, errors, k)) else [];
    forall k | 0 <= k < |chunk|
      ensures OneMore(sent(k), failed(k), sent(k + 1), failed(k + 1), chunk[k])
    {
      ReportOneMore(chunk, errors, k);
    }
    ShareAll(sent, failed, chunk, |chunk|);
    assert chunk[..|chunk|] == chunk;
  }

  /** Provider ids are stored only when the answer lines up with the chunk. */
  function ProviderIds(chunk: seq<Record>, result: BatchResult, upTo: nat): map<Id, string>
    requires result.Accepted? && upTo <= |chunk|
  {
    if upTo == 0 || result.data.None? || |result.data.value| != |chunk| then map[]
    else
      var before := ProviderIds(chunk, result, upTo - 1);
      if upTo - 1 in result.errors || result.data.value[upTo - 1] == "" then before
      else before[chunk[upTo - 1].id := result.data.value[upTo - 1]]
  }

  function AcceptedCalls(chunk: seq<Record>, result: BatchResult): (r: seq<Call>)
    requires result.Accepted?
    ensures forall call <- r :: LegalCall(call)
  {
    var sent := Unfailed(chunk, result.errors, |chunk|);
    ReportedFailures(chunk, result.errors, |chunk|)
    + (if sent == [] then [] else [SentCall(sent, ProviderIds(chunk, result, |chunk|))])
  }

  predicate DistinctIds(rows: seq<Record>) {
    forall i, j :: 0 <= i < j < |rows| ==> rows[i].id != rows[j].id
  }

  /** The provider's answer lines up with the chunk and names an id at this position. */
  predicate HasProviderId(chunk: seq<Record>, result: BatchResult, i: nat)
    requires result.Accepted?
  {
    result.data.Some? && |result.data.value| == |chunk| && i < |chunk| && result.data.value[i] != ""
  }

  /** The provider id stored for position `i`: the one in the answer, or none. */
  predicate StoredAt(ids: map<Id, string>, chunk: seq<Record>, result: BatchResult, i: nat, named: bool)
    requires result.Accepted? && i < |chunk| && (named ==> HasProviderId(chunk, result, i))
  {
    && (chunk[i].id in ids <==> named)
    && (named ==> ids[chunk[i].id] == result.data.value[i])
  }

  /** A failure call about one reported position, with the error reported for it. */
  predicate FailsReported(call: Call, chunk: seq<Record>, errors: map<nat, string>) {
    exists i :: 0 <= i < |chunk| && i in errors && call == FailCall([chunk[i]], Final(errors[i]))
  }

  /** A call that marks sent exactly the positions the provider did not report, each with the id it was given. */
  ghost predicate MarksUnreported(call: Call, chunk: seq<Record>, result: BatchResult)
    requires result.Accepted? && call.SentCall?
  {
    && (forall r :: r in call.rows <==> exists i :: 0 <= i < |chunk| && i !in result.errors && r == chunk[i])
    && (DistinctIds(chunk) ==> forall i: nat :: i < |chunk| ==>
          && (chunk[i] in call.rows <==> i !in result.errors)
          && StoredAt(call.providerIds, chunk, result, i, i !in result.errors && HasProviderId(chunk, result, i)))
  }

  /**
   An accepted chunk, position by position: a reported row is failed for good with the error reported for it,
   every other row is in the one call that marks rows sent.  There are no other calls.
   */
  ghost predicate SettlesByPosition(calls: seq<Call>, chunk: seq<Record>, result: BatchResult)
    requires result.Accepted?
  {
    && (forall call <- calls :: if call.SentCall? then MarksUnreported(call, chunk, result) else FailsReported(call, chunk, result.errors))
    && (forall i :: 0 <= i < |chunk| && i in result.errors ==> FailCall([chunk[i]], Final(result.errors[i])) in calls)
    && (forall i :: 0 <= i < |chunk| && i !in result.errors ==> exists call <- calls :: call.SentCall? && chunk[i] in call.rows)
    && (forall a, b :: 0 <= a < |calls| && 0 <= b < |calls| && calls[a].SentCall? && calls[b].SentCall? ==> a == b)
  }

  lemma {:induction false} ReportedByPosition(chunk: seq<Record>, errors: map<nat, string>, upTo: nat)
    requires upTo <= |chunk|
    ensures forall call <- ReportedFailures(chunk, errors, upTo) :: FailsReported(call, chunk, errors)
    ensures forall i :: 0 <= i < upTo && i in errors ==>
              FailCall([chunk[i]], Final(errors[i])) in ReportedFailures(chunk, errors, upTo)
  {
    if upTo > 0 { ReportedByPosition(chunk, errors, upTo - 1); }
  }

  lemma {:induction false} UnfailedByPosition(chunk: seq<Record>, errors: map<nat, string>, upTo: nat)
    requires upTo <= |chunk|
    ensures forall r :: r in Unfailed(chunk, errors, upTo) <==> exists i :: 0 <= i < upTo && i !in errors && r == chunk[i]
  {
    if upTo > 0 { UnfailedByPosition(chunk, errors, upTo - 1); }
  }

  lemma {:induction false} ProviderIdByPosition(chunk: seq<Record>, result: BatchResult, upTo: nat, i: nat)
    requires result.Accepted? && upTo <= |chunk| && i < |chunk| && DistinctIds(chunk)
    ensures StoredAt(ProviderIds(chunk, result, upTo), chunk, result, i,
                     i < upTo && i !in result.errors && HasProviderId(chunk, result, i))
  {
    if upTo > 0 {
      ProviderIdByPosition(chunk, result, upTo - 1, i);
      assert i != upTo - 1 ==> chunk[i].id != chunk[upTo - 1].id;
    }
  }

  lemma SentByPosition(chunk: seq<Record>, result: BatchResult)
    requires result.Accepted?
    ensures MarksUnreported(SentCall(Unfailed(chunk, result.errors, |chunk|), ProviderIds(chunk, result, |chunk|)), chunk, result)
  {
    UnfailedByPosition(chunk, result.errors, |chunk|);
    if DistinctIds(chunk) {
      forall i: nat | i < |chunk|
        ensures chunk[i] in Unfailed(chunk, result.errors, |chunk|) <==> i !in result.errors
        ensures StoredAt(ProviderIds(chunk, result, |chunk|), chunk, result, i,
                         i !in result.errors && HasProviderId(chunk, result, i))
      {
        ProviderIdByPosition(chunk, result, |chunk|, i);
        assert forall j :: 0 <= j < |chunk| && chunk[j] == chunk[i] ==> j == i;
      }
    }
  }

  lemma AddSentCall(failures: seq<Call>, sent: seq<Call>, chunk: seq<Record>, result: BatchResult)
    requires result.Accepted?
    requires forall call <- failures :: call.FailCall? && FailsReported(call, chunk, result.errors)
    requires forall i :: 0 <= i < |chunk| && i in result.errors ==> FailCall([chunk[i]], Final(result.errors[i])) in failures
    requires |sent| <= 1 && forall call <- sent :: call.SentCall? && MarksUnreported(call, chunk, result)
    requires forall i :: 0 <= i < |chunk| && i !in result.errors ==> |sent| == 1 && chunk[i] in sent[0].rows
    ensures SettlesByPosition(failures + sent, chunk, result)
  {
    var calls := failures + sent;
    assert forall a :: 0 <= a < |failures| ==> calls[a] in failures;
    forall i | 0 <= i < |chunk| && i !in result.errors
      ensures exists call <- calls :: call.SentCall? && chunk[i] in call.rows
    {
      assert sent[0] in calls;
    }
  }

  lemma AcceptedByPosition(chunk: seq<Record>, result: BatchResult)
    requires result.Accepted?
    ensures SettlesByPosition(AcceptedCalls(chunk, result), chunk, result)
  {
    var failures, sent := ReportedFailures(chunk, result.errors, |chunk|), Unfailed(chunk, result.errors, |chunk|);
    ReportedByPosition(chunk, result.errors, |chunk|);
    UnfailedByPosition(chunk, result.errors, |chunk|);
    SentByPosition(chunk, result);
    assert forall i :: 0 <= i < |chunk| && i !in result.errors ==> chunk[i] in sent;
    AddSentCall(failures, if sent == [] then [] else [SentCall(sent, ProviderIds(chunk, result, |chunk|))], chunk, result);
  }

  method SettleAccepted(chunk: seq<Record>, result: BatchResult) returns (calls: seq<Call>)
    requires result.Accepted?
    ensures calls == AcceptedCalls(chunk, result)
    ensures SettlesByPosition(calls, chunk, result)
  {
    calls := [];
    var sent: seq<Record> := [];
    var providerIds: map<Id, string> := map[];
    for i := 0 to |chunk|
      invariant sent == Unfailed(chunk, result.errors, i) && calls == ReportedFailures(chunk, result.errors, i)
      invariant providerIds == ProviderIds(chunk, result, i)
    {
      if i in result.errors {
        calls := calls + [FailCall([chunk[i]], Final(result.errors[i]))];
      } else {
        sent := sent + [chunk[i]];
        if result.data.Some? && |result.data.value| == |chunk| && result.data.value[i] != "" {
          providerIds := providerIds[chunk[i].id := result.data.value[i]];
        }
      }
    }
    if sent != [] { calls := calls + [SentCall(sent, providerIds)]; }
    AcceptedByPosition(chunk, result);
  }

  lemma AcceptedPartitions(chunk: seq<Record>, result: BatchResult)
    requires result.Accepted?
    ensures multiset(RowsOf(AcceptedCalls(chunk, result))) == multiset(chunk)
  {
    var failures, sent := ReportedFailures(chunk, result.errors, |chunk|), Unfailed(chunk, result.errors, |chunk|);
    ReportPartitions(chunk, result.errors);
    if sent == [] {
      assert failures + [] == failures;
    } else {
      RowsOfAppend(failures, SentCall(sent, ProviderIds(chunk, result, |chunk|)));
    }
  }

  /** What a refused batch becomes: one call about the whole chunk. */
  function SettleRejected(chunk: seq<Record>, kind: ErrorKind, error: string, deadRetry: nat, sample: real): (r: Call)
    requires chunk != [] && 0.0 <= sample < 1.0
    ensures LegalCall(r) && r.rows == chunk
    ensures r.ReleaseCall? <==> kind.InFlight?
    ensures r.FailCall? && r.failure.Retry? <==> kind.Retryable?
    ensures kind.InFlight? ==> r.delaySeconds == 60
    ensures kind.Retryable? ==> r == FailCall(chunk, FailureOfChunk(chunk, error, deadRetry, sample))
    ensures kind.Rejection? ==> r == FailCall(chunk, Final(error))
    ensures kind.Conflict? ==> r.FailCall? && r.failure.Final? && error < r.failure.lastError
  {
    match kind
    case InFlight => ReleaseCall(chunk, STILL_PROCESSING_RETRY_SECONDS)
    case Retryable => FailCall(chunk, FailureOfChunk(chunk, error, deadRetry, sample))
    case Conflict => FailCall(chunk, Final(ConflictError(error)))
    case Rejection => FailCall(chunk, Final(error))
  }

  ghost predicate AllAllowed(calls: seq<Call>, renders: Record -> bool, handed: bool) {
    forall call <- calls :: forall r <- call.rows :: CallAllowed(call, r, renders, handed)
  }

  lemma SettledAllowed(chunk: seq<Record>, result: BatchResult, renders: Record -> bool)
    requires result.Accepted? && forall r <- chunk :: renders(r)
    ensures AllAllowed(AcceptedCalls(chunk, result), renders, true)
  {
  }

  lemma FailuresAllowed(rows: seq<Record>, renders: Record -> bool, handed: bool)
    ensures AllAllowed(RenderFailures(rows, renders, |rows|), renders, handed)
  {
  }

  /** The calls about rows that did not render: one final failure for each. */
  ghost predicate FailsUnrendered(calls: seq<Call>, claimed: seq<Record>, renders: Record -> bool) {
    && (forall call <- calls :: exists r <- claimed :: !renders(r) && call == FailCall([r], Final("render failed")))
    && (forall r <- claimed :: !renders(r) ==> FailCall([r], Final("render failed")) in calls)
  }

  /** The calls about the rows that rendered: released when the key did not land, else as the provider answered. */
  ghost predicate SettlesRendered(calls: seq<Call>, chunk: seq<Record>, held: bool, result: BatchResult, deadRetry: nat, sample: real)
    requires 0.0 <= sample < 1.0
  {
    if chunk == [] then calls == []
    else if !held then calls == [ReleaseCall(chunk, 0)]
    else if result.Refused? then calls == [SettleRejected(chunk, result.kind, result.error, deadRetry, sample)]
    else SettlesByPosition(calls, chunk, result)
  }

  /** All calls about a chunk: first those about what did not render, then those about what did. */
  ghost predicate SettlesChunk(calls: seq<Call>, n: nat, claimed: seq<Record>, renders: Record -> bool, held: bool,
                               result: BatchResult, deadRetry: nat, sample: real)
    requires 0.0 <= sample < 1.0
  {
    && n <= |calls| && FailsUnrendered(calls[..n], claimed, renders)
    && SettlesRendered(calls[n..], Rendered(claimed, renders), held, result, deadRetry, sample)
  }

  lemma {:induction false} UnrenderedUpTo(rows: seq<Record>, renders: Record -> bool, upTo: nat)
    requires upTo <= |rows|
    ensures FailsUnrendered(RenderFailures(rows, renders, upTo), rows[..upTo], renders)
    decreases upTo
  {
    if upTo > 0 {
      UnrenderedUpTo(rows, renders, upTo - 1);
      assert rows[..upTo] == rows[..upTo - 1] + [rows[upTo - 1]];
    }
  }

  lemma ChunkSettled(failed: seq<Call>, settled: seq<Call>, claimed: seq<Record>, renders: Record -> bool, held: bool,
                     result: BatchResult, deadRetry: nat, sample: real)
    requires 0.0 <= sample < 1.0 && failed == RenderFailures(claimed, renders, |claimed|)
    requires SettlesRendered(settled, Rendered(claimed, renders), held, result, deadRetry, sample)
    ensures exists n: nat :: SettlesChunk(failed + settled, n, claimed, renders, held, result, deadRetry, sample)
  {
    var calls := failed + settled;
    UnrenderedUpTo(claimed, renders, |claimed|);
    assert claimed[..|claimed|] == claimed && calls[..|failed|] == failed && calls[|failed|..] == settled;
    assert SettlesChunk(calls, |failed|, claimed, renders, held, result, deadRetry, sample);
  }

  /**
   A chunk from claim to settlement.  `held`: the batch key landed on every row.  `under` is the
   key the provider saw, if anything was sent.  Every claimed row ends in exactly one call.
   */
  method SendChunk(claimed: seq<Record>, renders: Record -> bool, held: bool, result: BatchResult, deadRetry: nat, sample: real)
    returns (calls: seq<Call>, under: Option<BatchKey>)
    requires 0.0 <= sample < 1.0
    ensures multiset(RowsOf(calls)) == multiset(claimed)
    ensures AllAllowed(calls, renders, under.Some?)
    ensures var chunk := Rendered(claimed, renders);
            under == if chunk != [] && held then Some(ChunkBatchKey(chunk)) else None
    ensures under.Some? && result.Refused? ==>
              SettleRejected(Rendered(claimed, renders), result.kind, result.error, deadRetry, sample) in calls
    ensures exists n: nat :: SettlesChunk(calls, n, claimed, renders, held, result, deadRetry, sample)
  {
    var chunk, failed := RenderAll(claimed, renders);
    RenderingPartitions(claimed, renders);
    under := if chunk != [] && held then Some(ChunkBatchKey(chunk)) else None;
    FailuresAllowed(claimed, renders, under.Some?);
    if chunk == [] {
      ChunkSettled(failed, [], claimed, renders, held, result, deadRetry, sample);
      assert failed + [] == failed;
      return failed, None;
    }
    var settled := SettleChunk(chunk, held, result, deadRetry, sample);
    assert AllAllowed(settled, renders, held) by {
      if held && result.Accepted? { SettledAllowed(chunk, result, renders); }
    }
    PutTogether(failed, settled, chunk, claimed, renders, held);
    if held && result.Accepted? { AcceptedByPosition(chunk, result); }
    ChunkSettled(failed, settled, claimed, renders, held, result, deadRetry, sample);
    return failed + settled, under;
  }

  lemma PutTogether(failed: seq<Call>, settled: seq<Call>, chunk: seq<Record>, claimed: seq<Record>, renders: Record -> bool, held: bool)
    requires multiset(chunk) + multiset(RowsOf(failed)) == multiset(claimed) && multiset(RowsOf(settled)) == multiset(chunk)
    requires AllAllowed(failed, renders, held) && AllAllowed(settled, renders, held)
    ensures multiset(RowsOf(failed + settled)) == multiset(claimed) && AllAllowed(failed + settled, renders, held)
  {
    RowsOfConcat(failed, settled);
  }

  /** The calls about the rows that rendered. */
  method SettleChunk(chunk: seq<Record>, held: bool, result: BatchResult, deadRetry: nat, sample: real) returns (calls: seq<Call>)
    requires chunk != [] && 0.0 <= sample < 1.0
    ensures multiset(RowsOf(calls)) == multiset(chunk)
    ensures calls ==
            if !held then [ReleaseCall(chunk, 0)]
            else if result.Refused? then [SettleRejected(chunk, result.kind, result.error, deadRetry, sample)]
            else AcceptedCalls(chunk, result)
  {
    if held && result.Accepted? {
      calls := SettleAccepted(chunk, result);
      AcceptedPartitions(chunk, result);
    } else {
      var call := if held then SettleRejected(chunk, result.kind, result.error, deadRetry, sample) else ReleaseCall(chunk, 0);
      OneCallRows(call);
      calls := [call];
    }
  }

  lemma OneCallRows(call: Call)
    ensures RowsOf([call]) == call.rows
  {
    RowsOfAppend([], call);
    assert [] + [call] == [call] && [] + call.rows == call.rows;
  }

  // ---------- failing rows ----------

  function Leases(rows: seq<Record>): set<LeaseKey> {
    set r | r in rows :: KeyOf(r)
  }

  /** The failure lands on the message and exhausts it. */
  predicate ExhaustedIn(t: Table, rows: seq<Record>, failure: Failure, id: Id) {
    exists r <- rows :: r.id == id && Leased(t, KeyOf(r)) && Exhausts(r, failure)
  }

  /** One transaction: the rows that are written and die for the first time are announced, each once. */
  method SettleFailures(queue: DrizzleEmailQueue, rows: seq<Record>, failure: Failure, now: Instant) returns (announced: seq<Id>)
    requires forall i, j :: 0 <= i < j < |rows| ==> rows[i].id != rows[j].id
    modifies queue
    ensures queue.rows == MarkFailed(old(queue.rows), Leases(rows), failure, now)
    ensures Distinct(announced) && forall id :: id in announced <==> ExhaustedIn(old(queue.rows), rows, failure, id)
  {
    ghost var t := queue.rows;
    var written := queue.DoMarkFailed(Leases(rows), failure, now);
    announced := [];
    if failure.Retry? && !failure.dead { return; }
    for i := 0 to |rows|
      invariant queue.rows == MarkFailed(t, Leases(rows), failure, now) && written == WrittenRows(t, Leases(rows))
      invariant Distinct(announced)
      invariant forall id :: id in announced <==> ExhaustedIn(t, rows[..i], failure, id)
    {
      var row := rows[i];
      assert rows[..i + 1] == rows[..i] + [row];
      assert row.id in written <==> Leased(t, KeyOf(row));
      assert row.id !in announced by { assert forall r <- rows[..i] :: r.id != row.id; }
      if row.id in written && !row.status.Dead? {
        announced := announced + [row.id];
      }
    }
    assert rows[..|rows|] == rows;
  }
}
