/** Delete requests go through the queue and reach the store in batches.  With no other
    store operation in between, that is the same as deleting at once. */
module DelayedDelete {
  import opened Sequences
  import opened MemoryDb
  import opened FlusherProtocol
  import opened FlusherInvariant
  import opened FlusherTheorems

  /** The store after the flush callback has run on every batch in turn. */
  function ApplyBatches(db: DB, batches: seq<seq<URL>>): DB {
    if batches == [] then db
    else DeleteAll(ApplyBatches(db, batches[..|batches| - 1]), batches[|batches| - 1])
  }

  /** The sum of what the callback calls report as affected. */
  function CountBatches(db: DB, batches: seq<seq<URL>>): nat {
    if batches == [] then 0
    else
      var front := batches[..|batches| - 1];
      CountBatches(db, front) + DeleteCount(ApplyBatches(db, front), batches[|batches| - 1])
  }

  lemma {:induction false} BatchingIrrelevant(db: DB, batches: seq<seq<URL>>)
    ensures ApplyBatches(db, batches) == DeleteAll(db, Flatten(batches))
    ensures CountBatches(db, batches) == DeleteCount(db, Flatten(batches))
  {
    if batches != [] {
      var front := batches[..|batches| - 1];
      BatchingIrrelevant(db, front);
      DeleteConcat(db, Flatten(front), batches[|batches| - 1]);
    }
  }

  /** In every reachable state of the queue, whatever the batching, the store is as if the
      elements that left the buffer had been deleted one after another in lock order. */
  lemma FlushedDeletesAreImmediate(db: DB, s: State<URL>, flushSize: int)
    requires Reachable(s, flushSize)
    ensures OrderOk(s) && Conserved(s)
    ensures var n := |Flatten(s.m.batches)|;
      && n <= |AppendedIds(s)|
      && ApplyBatches(db, s.m.batches) == DeleteAll(db, Pick(s.elems, AppendedIds(s))[..n])
      && CountBatches(db, s.m.batches) == DeleteCount(db, Pick(s.elems, AppendedIds(s))[..n])
  {
    ConservationInOrder(s, flushSize);
    BatchingIrrelevant(db, s.m.batches);
    var n := |Flatten(s.m.batches)|;
    assert Pick(s.elems, AppendedIds(s))[..n] == Flatten(s.m.batches);
  }

  lemma FindIndex(a: seq<nat>, b: seq<nat>) returns (j: nat)
    requires |a| > 0 && Distinct(a) && Distinct(b) && forall i :: i in a <==> i in b
    ensures j < |b| && b[j] == a[0]
    ensures Distinct(a[1..]) && Distinct(Without(b, j))
    ensures forall i :: i in a[1..] <==> i in Without(b, j)
  {
    assert a[0] in b;
    j :| 0 <= j < |b| && b[j] == a[0];
    assert b[j] !in Without(b, j);
    assert a == [a[0]] + a[1..];
    assert a[0] !in a[1..];
  }

  lemma PickWithout(xs: seq<URL>, b: seq<nat>, j: nat)
    requires j < |b| && forall i :: i in b ==> i < |xs|
    ensures b[j] in b
    ensures multiset(Pick(xs, b)) == multiset{xs[b[j]]} + multiset(Pick(xs, Without(b, j)))
  {
    assert Pick(xs, Without(b, j)) == Without(Pick(xs, b), j);
  }

  /** Two enumerations of the same positions pick the same elements. */
  lemma {:induction false} PickSameMembers(xs: seq<URL>, a: seq<nat>, b: seq<nat>)
    requires Distinct(a) && Distinct(b) && forall i :: i in a <==> i in b
    requires (forall i :: i in a ==> i < |xs|) && (forall i :: i in b ==> i < |xs|)
    ensures multiset(Pick(xs, a)) == multiset(Pick(xs, b))
    decreases |a|
  {
    if a == [] {
      assert forall k :: 0 <= k < |b| ==> b[k] in b;
    } else {
      var j := FindIndex(a, b);
      assert Without(a, 0) == a[1..];
      PickWithout(xs, a, 0);
      PickWithout(xs, b, j);
      PickSameMembers(xs, a[1..], Without(b, j));
    }
  }

  /** After a shutdown at whose start no call was waiting for the mutex, the store is as if
      every accepted delete had been applied immediately, one by one, in any order. */
  lemma CleanShutdownDeletesAll(db: DB, s: State<URL>, acts: seq<Action<URL>>, flushSize: int, accepted: seq<nat>)
    requires ShutdownRun(s, acts, flushSize)
    requires forall i :: 0 <= i < |s.pcs| ==> s.pcs[i] != Passed
    requires var t := Exec(s, [RunStep] + acts, flushSize).value;
      |t.pcs| == |t.elems| && Distinct(accepted) &&
      forall i: nat :: i in accepted <==> i < |t.pcs| && t.pcs[i] == Accepted
    ensures var t := Exec(s, [RunStep] + acts, flushSize).value;
      && ApplyBatches(db, t.m.batches) == DeleteAll(db, Pick(t.elems, accepted))
      && CountBatches(db, t.m.batches) == DeleteCount(db, Pick(t.elems, accepted))
  {
    var t := Exec(s, [RunStep] + acts, flushSize).value;
    CleanShutdown(s, acts, flushSize);
    BatchingIrrelevant(db, t.m.batches);
    PickSameMembers(t.elems, accepted, t.order);
    DeleteOrderFree(db, Pick(t.elems, accepted), Pick(t.elems, t.order));
  }

  // ---------------------------------------------------------------- past other operations

  /** The operation stores, or tries to store, this key. */
  ghost predicate Stores(op: Op, key: string) {
    match op
    case OpStore(url, _, _) => url.short == key
    case OpBatch(urls, _) => !Absent(urls, key)
    case OpDelete(_) => false
  }

  ghost predicate Apart(op: Op, deletes: seq<URL>) {
    forall d :: d in deletes ==> !Stores(op, d.short)
  }

  lemma PutPastDelete(db: DB, r: Record, deletes: seq<URL>)
    requires forall d :: d in deletes ==> d.short != r.shortURL
    ensures Put(DeleteAll(db, deletes), r) == DeleteAll(Put(db, r), deletes)
  {
    DeleteAllExactly(db, deletes);
    DeleteAllExactly(Put(db, r), deletes);
    forall k | k in Put(db, r)
      ensures Put(DeleteAll(db, deletes), r)[k] == DeleteAll(Put(db, r), deletes)[k]
    {
      assert k != r.shortURL ==> (Hit(db, deletes, k) <==> Hit(Put(db, r), deletes, k));
    }
  }

  lemma {:induction false} PutAllPastDelete(db: DB, records: seq<Record>, deletes: seq<URL>)
    requires forall r, d :: r in records && d in deletes ==> d.short != r.shortURL
    ensures PutAll(DeleteAll(db, deletes), records) == DeleteAll(PutAll(db, records), deletes)
    decreases |records|
  {
    if records != [] {
      PutPastDelete(db, records[0], deletes);
      PutAllPastDelete(Put(db, records[0]), records[1..], deletes);
    }
  }

  lemma {:induction false} PreparePastDelete(db: DB, urls: seq<URL>, ids: Supply, deletes: seq<URL>)
    requires forall d :: d in deletes ==> Absent(urls, d.short)
    ensures Prepare(DeleteAll(db, deletes), urls, ids) == Prepare(db, urls, ids)
    decreases |urls|
  {
    if urls != [] {
      DeleteAllExactly(db, deletes);
      assert forall u :: u in urls[1..] ==> u in urls;
      assert !Hit(db, deletes, urls[0].short);
      PreparePastDelete(db, urls[1..], Rest(ids), deletes);
    }
  }

  lemma BatchPastDelete(db: DB, urls: seq<URL>, ids: Supply, deletes: seq<URL>)
    requires forall d :: d in deletes ==> Absent(urls, d.short)
    ensures Prepare(DeleteAll(db, deletes), urls, ids) == Prepare(db, urls, ids)
    ensures Prepare(db, urls, ids).Ok? ==>
      PutAll(DeleteAll(db, deletes), Prepare(db, urls, ids).value)
      == DeleteAll(PutAll(db, Prepare(db, urls, ids).value), deletes)
  {
    PreparePastDelete(db, urls, ids, deletes);
    if Prepare(db, urls, ids).Ok? {
      PrepareRecords(db, urls, ids);
      var records := Prepare(db, urls, ids).value;
      forall r, d | r in records && d in deletes ensures d.short != r.shortURL {
        var i :| 0 <= i < |records| && records[i] == r;
        assert urls[i] in urls;
      }
      PutAllPastDelete(db, records, deletes);
    }
  }

  /** One operation that stores none of the keys to be deleted ends the same way before and
      after the deletion, and the two can change places. */
  lemma OpPastDelete(db: DB, op: Op, deletes: seq<URL>)
    requires Apart(op, deletes)
    ensures TryApply(DeleteAll(db, deletes), op) ==
      match TryApply(db, op) case Err(e) => Err(e) case Ok(next) => Ok(DeleteAll(next, deletes))
  {
    match op
    case OpStore(url, overwrite, id) =>
      DeleteAllExactly(db, deletes);
      assert !Hit(db, deletes, url.short);
      if Store(db, url, overwrite, id).Ok? {
        PutPastDelete(db, NewRecord(url, id.value), deletes);
      }
    case OpBatch(urls, ids) => BatchPastDelete(db, urls, ids, deletes);
    case OpDelete(urls) =>
      DeleteConcat(db, deletes, urls);
      DeleteConcat(db, urls, deletes);
      DeleteOrderFree(db, deletes + urls, urls + deletes);
  }

  /** Deletes may wait in the queue while any operations of any users go by: as long as these
      store none of the keys to be deleted, the result is the same as of deleting at once,
      and so is the outcome of every operation in between. */
  lemma {:induction false} DelayPastRun(db: DB, ops: seq<Op>, deletes: seq<URL>)
    requires forall op :: op in ops ==> Apart(op, deletes)
    ensures ApplyAll(DeleteAll(db, deletes), ops) == DeleteAll(ApplyAll(db, ops), deletes)
    ensures forall i :: 0 <= i < |ops| ==>
      (TryApply(ApplyAll(DeleteAll(db, deletes), ops[..i]), ops[i]).Ok? <==>
       TryApply(ApplyAll(db, ops[..i]), ops[i]).Ok?)
    decreases |ops|
  {
    if ops != [] {
      OpPastDelete(db, ops[0], deletes);
      DelayPastRun(Apply(db, ops[0]), ops[1..], deletes);
      forall i | 0 <= i < |ops|
        ensures TryApply(ApplyAll(DeleteAll(db, deletes), ops[..i]), ops[i]).Ok? <==>
                TryApply(ApplyAll(db, ops[..i]), ops[i]).Ok?
      {
        if i > 0 {
          assert ops[..i][1..] == ops[1..][..i - 1] && ops[1..][i - 1] == ops[i];
        }
      }
    }
  }

  lemma {:induction false} LastExists(urls: seq<URL>, key: string) returns (j: nat)
    requires !Absent(urls, key)
    ensures LastOfShort(urls, j) && urls[j].short == key
    decreases |urls|
  {
    var last := urls[|urls| - 1];
    if last.short == key {
      j := |urls| - 1;
    } else {
      var u :| u in urls && u.short == key;
      assert urls == urls[..|urls| - 1] + [last];
      assert u in urls[..|urls| - 1];
      j := LastExists(urls[..|urls| - 1], key);
    }
  }

  /** A delete does something exactly when the key is live and the owner asks for it. */
  lemma DeleteChangesExactly(db: DB, d: URL)
    ensures DeleteOne(db, d) != db <==> Live(db, d.short) && db[d.short].userID == d.userID
  {
    if Owns(db, d) {
      assert DeleteOne(db, d)[d.short].deleted;
      assert db[d.short].deleted ==> db[d.short].(deleted := true) == db[d.short];
    }
  }

  /** The last entry for the deleted key is stored live, so the deletion would reach it. */
  lemma StoredThenDeleted(db: DB, d: URL, urls: seq<URL>, ids: Supply) returns (j: nat)
    requires StoreBatch(db, urls, ids).Ok? && !Absent(urls, d.short)
    ensures LastOfShort(urls, j) && urls[j].short == d.short && Live(StoreBatch(db, urls, ids).value, d.short)
    ensures DeleteOne(StoreBatch(db, urls, ids).value, d) == StoreBatch(db, urls, ids).value
      <==> urls[j].userID != d.userID
    ensures DeleteOne(db, d) == db
  {
    j := LastExists(urls, d.short);
    BatchLastWins(db, urls, ids);
    PrepareExactly(db, urls, ids);
    DeleteChangesExactly(db, d);
    DeleteChangesExactly(StoreBatch(db, urls, ids).value, d);
  }

  /** The batch is given a UUID for every entry, and finds no key but perhaps this one live. */
  ghost predicate RoomBut(db: DB, key: string, urls: seq<URL>, ids: Supply) {
    && |urls| <= |ids| && (forall i :: 0 <= i < |urls| ==> ids[i].Some?)
    && (forall u :: u in urls && u.short != key ==> !Live(db, u.short))
  }

  /** The user has the last entry for this key. */
  ghost predicate LastEntryOf(urls: seq<URL>, key: string, user: string) {
    exists j: nat :: LastOfShort(urls, j) && urls[j].short == key && urls[j].userID == user
  }

  /** Delaying one delete past one batch makes a difference exactly when the batch names the
      key, gets its UUIDs and finds no other key live, and the delete is by the owner of the
      key if that is live, and by the user of the batch's last entry for it otherwise. */
  lemma DeletePastBatchExactly(db: DB, d: URL, urls: seq<URL>, ids: Supply)
    ensures Apply(DeleteOne(db, d), OpBatch(urls, ids)) != DeleteOne(Apply(db, OpBatch(urls, ids)), d) <==>
      !Absent(urls, d.short) && RoomBut(db, d.short, urls, ids) &&
      if Live(db, d.short) then db[d.short].userID == d.userID else LastEntryOf(urls, d.short, d.userID)
  {
    var now := DeleteOne(db, d);
    assert DeleteAll(db, [d]) == DeleteAll(now, []);
    PrepareExactly(db, urls, ids);
    PrepareExactly(now, urls, ids);
    if Absent(urls, d.short) {
      OpPastDelete(db, OpBatch(urls, ids), [d]);
      var next := Apply(db, OpBatch(urls, ids));
      assert DeleteAll(next, [d]) == DeleteAll(DeleteOne(next, d), []);
    } else {
      var u :| u in urls && u.short == d.short;
      DeleteChangesExactly(db, d);
      if StoreBatch(db, urls, ids).Ok? {
        var j := StoredThenDeleted(db, d, urls, ids);
        assert forall i: nat :: LastOfShort(urls, i) && urls[i].short == d.short ==> i == j;
      } else if StoreBatch(now, urls, ids).Ok? {
        var j := StoredThenDeleted(now, d, urls, ids);
      }
    }
  }
}
