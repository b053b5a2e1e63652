/** The key-value database behind the memory store, as values: what each operation of
    internal/storage/memory/simple.go makes of it, and what holds over whole runs. */
module MemoryDb {
  import opened Sequences

  datatype Record = Record(uuid: string, shortURL: string, originalURL: string, userID: string, deleted: bool)
  type DB = map<string, Record>

  datatype URL = URL(short: string, orig: string, userID: string, ts: int)

  datatype StoreError = NotFound | AlreadyExists | Conflict | Deleted | NoUuid
  datatype Result<+T> = Ok(value: T) | Err(error: StoreError)

  /** What successive calls of the UUID generator would return; None is its error, and so
      is running out of the supply. */
  type Supply = seq<Option<string>>

  function Next(ids: Supply): Option<string> { if ids == [] then None else ids[0] }
  function Rest(ids: Supply): Supply { if ids == [] then [] else ids[1..] }

  function NewRecord(url: URL, id: string): Record {
    Record(id, url.short, url.orig, url.userID, false)
  }

  /** A binding that Get would serve and that a non-overwriting store must not replace. */
  predicate Live(db: DB, key: string) {
    key in db && !db[key].deleted
  }

  function Get(db: DB, key: string): Result<string> {
    if key !in db then Err(NotFound)
    else if db[key].deleted then Err(Deleted)
    else Ok(db[key].originalURL)
  }

  function Store(db: DB, url: URL, overwrite: bool, id: Option<string>): Result<DB> {
    if Live(db, url.short) && !overwrite then Err(AlreadyExists)
    else if id == None then Err(NoUuid)
    else Ok(db[url.short := NewRecord(url, id.value)])
  }

  /** The checking pass over a batch: the first error, or the records to be put. */
  function Prepare(db: DB, urls: seq<URL>, ids: Supply): Result<seq<Record>> {
    if urls == [] then Ok([])
    else if Live(db, urls[0].short) then Err(AlreadyExists)
    else if Next(ids) == None then Err(NoUuid)
    else
      match Prepare(db, urls[1..], Rest(ids))
      case Err(e) => Err(e)
      case Ok(rest) => Ok([NewRecord(urls[0], Next(ids).value)] + rest)
  }

  function Put(db: DB, r: Record): DB { db[r.shortURL := r] }

  function PutAll(db: DB, records: seq<Record>): DB
    decreases |records|
  {
    if records == [] then db else PutAll(Put(db, records[0]), records[1..])
  }

  function StoreBatch(db: DB, urls: seq<URL>, ids: Supply): Result<DB> {
    match Prepare(db, urls, ids)
    case Err(e) => Err(e)
    case Ok(records) => Ok(PutAll(db, records))
  }

  predicate Owns(db: DB, url: URL) {
    url.short in db && db[url.short].userID == url.userID
  }

  function DeleteOne(db: DB, url: URL): DB {
    if Owns(db, url) then db[url.short := db[url.short].(deleted := true)] else db
  }

  function DeleteAll(db: DB, urls: seq<URL>): DB
    decreases |urls|
  {
    if urls == [] then db else DeleteAll(DeleteOne(db, urls[0]), urls[1..])
  }

  function DeleteCount(db: DB, urls: seq<URL>): nat
    decreases |urls|
  {
    if urls == [] then 0
    else (if Owns(db, urls[0]) then 1 else 0) + DeleteCount(DeleteOne(db, urls[0]), urls[1..])
  }

  // ---------------------------------------------------------------- what is stored, and what is refused

  /** One store, for every input: a live key that is not to be overwritten is refused before
      the UUID is drawn, and what is written is a fresh record of all the given fields. */
  lemma StoreExactly(db: DB, url: URL, overwrite: bool, id: Option<string>)
    ensures Store(db, url, overwrite, id) == Err(AlreadyExists) <==>
      !overwrite && url.short in db && !db[url.short].deleted
    ensures Store(db, url, overwrite, id) == Err(NoUuid) <==>
      id == None && !(!overwrite && url.short in db && !db[url.short].deleted)
    ensures Store(db, url, overwrite, id).Ok? <==>
      id.Some? && (overwrite || url.short !in db || db[url.short].deleted)
    ensures Store(db, url, overwrite, id).Ok? ==>
      var next := Store(db, url, overwrite, id).value;
      && next.Keys == db.Keys + {url.short}
      && next[url.short].uuid == id.value && next[url.short].shortURL == url.short
      && next[url.short].originalURL == url.orig && next[url.short].userID == url.userID
      && !next[url.short].deleted
      && forall k :: k in db && k != url.short ==> next[k] == db[k]
  {
  }

  /** Entry i is refused: its key is live, or there is no UUID for it. */
  predicate RefusedEntry(db: DB, urls: seq<URL>, ids: Supply, i: nat)
    requires i < |urls|
  {
    (urls[i].short in db && !db[urls[i].short].deleted) || i >= |ids| || ids[i] == None
  }

  /** The error of a batch is that of its first refused entry, the key being tested before the
      UUID is drawn. */
  lemma {:induction false} PrepareFailsAtFirst(db: DB, urls: seq<URL>, ids: Supply) returns (i: nat)
    requires Prepare(db, urls, ids).Err?
    ensures i < |urls| && RefusedEntry(db, urls, ids, i)
    ensures forall j :: 0 <= j < i ==> !RefusedEntry(db, urls, ids, j)
    ensures Prepare(db, urls, ids).error ==
      if urls[i].short in db && !db[urls[i].short].deleted then AlreadyExists else NoUuid
  {
    if RefusedEntry(db, urls, ids, 0) {
      i := 0;
    } else {
      var h := PrepareFailsAtFirst(db, urls[1..], Rest(ids));
      i := h + 1;
      forall j | 0 <= j < i ensures !RefusedEntry(db, urls, ids, j) {
        assert j > 0 ==> !RefusedEntry(db, urls[1..], Rest(ids), j - 1);
      }
    }
  }

  // ---------------------------------------------------------------- runs

  datatype Op =
    | OpStore(url: URL, overwrite: bool, id: Option<string>)
    | OpBatch(urls: seq<URL>, ids: Supply)
    | OpDelete(urls: seq<URL>)

  function TryApply(db: DB, op: Op): Result<DB> {
    match op
    case OpStore(url, overwrite, id) => Store(db, url, overwrite, id)
    case OpBatch(urls, ids) => StoreBatch(db, urls, ids)
    case OpDelete(urls) => Ok(DeleteAll(db, urls))
  }

  /** The database after an operation, successful or not. */
  function Apply(db: DB, op: Op): DB {
    match TryApply(db, op) case Ok(next) => next case Err(_) => db
  }

  function ApplyAll(db: DB, ops: seq<Op>): DB
    decreases |ops|
  {
    if ops == [] then db else ApplyAll(Apply(db, ops[0]), ops[1..])
  }

  /** Every record is filed under its own short URL. */
  ghost predicate Keyed(db: DB) {
    forall k :: k in db ==> db[k].shortURL == k
  }

  lemma {:induction false} PutAllKeyed(db: DB, records: seq<Record>)
    requires Keyed(db)
    ensures Keyed(PutAll(db, records))
    decreases |records|
  {
    if records != [] {
      PutAllKeyed(Put(db, records[0]), records[1..]);
    }
  }

  lemma {:induction false} DeleteAllKeyed(db: DB, urls: seq<URL>)
    requires Keyed(db)
    ensures Keyed(DeleteAll(db, urls))
    decreases |urls|
  {
    if urls != [] {
      DeleteAllKeyed(DeleteOne(db, urls[0]), urls[1..]);
    }
  }

  lemma KeyedStep(db: DB, op: Op)
    requires Keyed(db)
    ensures Keyed(Apply(db, op))
  {
    match op
    case OpStore(_, _, _) =>
    case OpBatch(urls, ids) =>
      if Prepare(db, urls, ids).Ok? {
        PutAllKeyed(db, Prepare(db, urls, ids).value);
      }
    case OpDelete(urls) => DeleteAllKeyed(db, urls);
  }

  lemma {:induction false} KeyedAlways(db: DB, ops: seq<Op>)
    requires Keyed(db)
    ensures Keyed(ApplyAll(db, ops))
    decreases |ops|
  {
    if ops != [] {
      KeyedStep(db, ops[0]);
      KeyedAlways(Apply(db, ops[0]), ops[1..]);
    }
  }

  // ---------------------------------------------------------------- deletion

  /** Some entry of urls names this key on behalf of its owner. */
  ghost predicate Hit(db: DB, urls: seq<URL>, key: string) {
    key in db && exists u :: u in urls && u.short == key && u.userID == db[key].userID
  }

  function Hits(db: DB, urls: seq<URL>): nat {
    if urls == [] then 0 else (if Owns(db, urls[0]) then 1 else 0) + Hits(db, urls[1..])
  }

  lemma {:induction false} HitsFrame(db: DB, other: DB, urls: seq<URL>)
    requires db.Keys == other.Keys && forall k :: k in db ==> db[k].userID == other[k].userID
    ensures Hits(db, urls) == Hits(other, urls)
    decreases |urls|
  {
    if urls != [] {
      HitsFrame(db, other, urls[1..]);
    }
  }

  /** Deleting in sequence marks exactly the keys that some entry hits in the database as it
      was before, changes nothing else, and counts the hitting entries, repeats included. */
  lemma {:induction false} DeleteAllExactly(db: DB, urls: seq<URL>)
    ensures DeleteAll(db, urls).Keys == db.Keys
    ensures forall k :: k in db ==>
      DeleteAll(db, urls)[k] == if Hit(db, urls, k) then db[k].(deleted := true) else db[k]
    ensures DeleteCount(db, urls) == Hits(db, urls)
    decreases |urls|
  {
    if urls != [] {
      var d1 := DeleteOne(db, urls[0]);
      DeleteAllExactly(d1, urls[1..]);
      HitsFrame(db, d1, urls[1..]);
      assert forall u :: u in urls <==> u == urls[0] || u in urls[1..];
      forall k | k in db
        ensures DeleteAll(db, urls)[k] == if Hit(db, urls, k) then db[k].(deleted := true) else db[k]
      {
        assert Hit(db, urls, k) <==> (Owns(db, urls[0]) && urls[0].short == k) || Hit(d1, urls[1..], k);
      }
    }
  }

  /** Deleting a concatenation is deleting the parts in turn, and the counts add. */
  lemma {:induction false} DeleteConcat(db: DB, a: seq<URL>, b: seq<URL>)
    ensures DeleteAll(db, a + b) == DeleteAll(DeleteAll(db, a), b)
    ensures DeleteCount(db, a + b) == DeleteCount(db, a) + DeleteCount(DeleteAll(db, a), b)
    decreases |a|
  {
    if a == [] {
      assert a + b == b;
    } else {
      assert (a + b)[1..] == a[1..] + b;
      DeleteConcat(DeleteOne(db, a[0]), a[1..], b);
    }
  }

  lemma {:induction false} HitsSplit(db: DB, a: seq<URL>, b: seq<URL>)
    ensures Hits(db, a + b) == Hits(db, a) + Hits(db, b)
  {
    if a == [] {
      assert a + b == b;
    } else {
      assert (a + b)[1..] == a[1..] + b;
      HitsSplit(db, a[1..], b);
    }
  }

  /** The positions below n of entries that name a key on behalf of its owner. */
  ghost function HitPositions(db: DB, urls: seq<URL>, n: nat): set<nat>
    requires n <= |urls|
  {
    set i: nat | i < n && urls[i].short in db && db[urls[i].short].userID == urls[i].userID
  }

  lemma {:induction false} HitsAreOwned(db: DB, urls: seq<URL>, n: nat)
    requires n <= |urls|
    ensures Hits(db, urls[..n]) == |HitPositions(db, urls, n)|
  {
    if n > 0 {
      HitsAreOwned(db, urls, n - 1);
      assert urls[..n] == urls[..n - 1] + [urls[n - 1]];
      HitsSplit(db, urls[..n - 1], [urls[n - 1]]);
      assert HitPositions(db, urls, n) ==
        HitPositions(db, urls, n - 1) + if Owns(db, urls[n - 1]) then {n - 1} else {};
    }
  }

  /** The count is the number of entries that, in the database as it was, name a key on behalf
      of its owner. */
  lemma DeleteCountExactly(db: DB, urls: seq<URL>)
    ensures DeleteCount(db, urls) ==
      |set i: nat | i < |urls| && urls[i].short in db && db[urls[i].short].userID == urls[i].userID|
  {
    DeleteAllExactly(db, urls);
    HitsAreOwned(db, urls, |urls|);
    assert urls[..|urls|] == urls;
    assert HitPositions(db, urls, |urls|) ==
      set i: nat | i < |urls| && urls[i].short in db && db[urls[i].short].userID == urls[i].userID;
  }

  lemma HitsWithout(db: DB, urls: seq<URL>, j: nat)
    requires j < |urls|
    ensures Hits(db, urls) == (if Owns(db, urls[j]) then 1 else 0) + Hits(db, Without(urls, j))
  {
    assert urls == urls[..j] + urls[j..];
    HitsSplit(db, urls[..j], urls[j..]);
    HitsSplit(db, urls[..j], urls[j + 1..]);
    assert urls[j..][1..] == urls[j + 1..];
  }

  lemma {:induction false} HitsOrderFree(db: DB, a: seq<URL>, b: seq<URL>)
    requires multiset(a) == multiset(b)
    ensures Hits(db, a) == Hits(db, b)
    decreases |a|
  {
    if a == [] {
      assert |multiset(b)| == 0;
    } else {
      assert a[0] in multiset(b);
      var j :| 0 <= j < |b| && b[j] == a[0];
      assert a == [a[0]] + a[1..];
      assert multiset(a) == multiset{a[0]} + multiset(a[1..]);
      assert multiset(Without(b, j)) == multiset(b) - multiset{b[j]};
      HitsOrderFree(db, a[1..], Without(b, j));
      HitsWithout(db, b, j);
    }
  }

  /** The order of the entries matters neither for the database nor for the count. */
  lemma DeleteOrderFree(db: DB, a: seq<URL>, b: seq<URL>)
    requires multiset(a) == multiset(b)
    ensures DeleteAll(db, a) == DeleteAll(db, b)
    ensures DeleteCount(db, a) == DeleteCount(db, b)
  {
    DeleteAllExactly(db, a);
    DeleteAllExactly(db, b);
    HitsOrderFree(db, a, b);
    assert forall u :: u in a <==> u in multiset(a);
    assert forall u :: u in b <==> u in multiset(b);
  }

  /** Who owns the key of a store once that has been tried. */
  function OwnerAfter(db: DB, s: URL, overwrite: bool): string {
    if Live(db, s.short) && !overwrite then db[s.short].userID else s.userID
  }

  /** Delaying one delete past one store is harmless exactly when the store gets no UUID, or
      the entry names another key, or a user other than the one who owns the key once the
      store has been tried. */
  lemma DeletePastStoreExactly(db: DB, d: URL, s: URL, overwrite: bool, id: Option<string>)
    ensures Apply(DeleteOne(db, d), OpStore(s, overwrite, id)) == DeleteOne(Apply(db, OpStore(s, overwrite, id)), d)
      <==> id == None || d.short != s.short || d.userID != OwnerAfter(db, s, overwrite)
  {
    var now := Apply(DeleteOne(db, d), OpStore(s, overwrite, id));
    var later := DeleteOne(Apply(db, OpStore(s, overwrite, id)), d);
    if id == None || d.short != s.short || d.userID != OwnerAfter(db, s, overwrite) {
      assert now.Keys == later.Keys;
      assert forall k :: k in now ==> now[k] == later[k];
    } else {
      assert !now[s.short].deleted && later[s.short].deleted;
    }
  }

  // ---------------------------------------------------------------- live bindings

  /** The operation contains a delete entry for key on behalf of user. */
  ghost predicate Deletes(op: Op, key: string, user: string) {
    op.OpDelete? && exists u :: u in op.urls && u.short == key && u.userID == user
  }

  ghost predicate Overwrites(op: Op) {
    op.OpStore? && op.overwrite
  }

  lemma {:induction false} PrepareSkipsLive(db: DB, urls: seq<URL>, ids: Supply)
    requires Prepare(db, urls, ids).Ok?
    ensures var rs := Prepare(db, urls, ids).value;
      |rs| == |urls| && forall i :: 0 <= i < |rs| ==> rs[i].shortURL == urls[i].short && !Live(db, rs[i].shortURL)
  {
    if urls != [] {
      PrepareSkipsLive(db, urls[1..], Rest(ids));
    }
  }

  /** The checking pass succeeds exactly when every entry gets its UUID and none is live. */
  lemma {:induction false} PrepareExactly(db: DB, urls: seq<URL>, ids: Supply)
    ensures Prepare(db, urls, ids).Ok? <==>
      && |urls| <= |ids| && (forall i :: 0 <= i < |urls| ==> ids[i].Some?)
      && (forall u :: u in urls ==> !Live(db, u.short))
  {
    if urls != [] {
      PrepareExactly(db, urls[1..], Rest(ids));
      assert urls == [urls[0]] + urls[1..];
      if |urls| <= |ids| {
        assert (forall i :: 0 <= i < |urls| ==> ids[i].Some?) <==>
          ids[0].Some? && forall i :: 0 <= i < |urls[1..]| ==> Rest(ids)[i].Some?
        by {
          if ids[0].Some? && forall i :: 0 <= i < |urls[1..]| ==> Rest(ids)[i].Some? {
            forall i | 0 < i < |urls| ensures ids[i].Some? {
              assert Rest(ids)[i - 1] == ids[i];
            }
          }
        }
      }
    }
  }

  lemma {:induction false} PutAllFrame(db: DB, records: seq<Record>, key: string)
    requires forall r :: r in records ==> r.shortURL != key
    ensures key in PutAll(db, records) <==> key in db
    ensures key in db ==> PutAll(db, records)[key] == db[key]
    decreases |records|
  {
    if records != [] {
      PutAllFrame(Put(db, records[0]), records[1..], key);
    }
  }

  lemma {:induction false} PutAllGrows(db: DB, records: seq<Record>)
    ensures db.Keys <= PutAll(db, records).Keys
    decreases |records|
  {
    if records != [] {
      PutAllGrows(Put(db, records[0]), records[1..]);
    }
  }

  /** One operation keeps a live binding's record as it is, unless it deletes it on behalf of
      its owner; then the key is a tombstone. */
  lemma LiveStep(db: DB, key: string, op: Op)
    requires Live(db, key) && !Overwrites(op)
    ensures var next := Apply(db, op);
      key in next && next[key] == if Deletes(op, key, db[key].userID) then db[key].(deleted := true) else db[key]
  {
    match op
    case OpStore(_, _, _) =>
    case OpBatch(urls, ids) =>
      if Prepare(db, urls, ids).Ok? {
        PrepareSkipsLive(db, urls, ids);
        PutAllFrame(db, Prepare(db, urls, ids).value, key);
      }
    case OpDelete(urls) => DeleteAllExactly(db, urls);
  }

  /** Keys never leave the map. */
  lemma {:induction false} KeysStay(db: DB, ops: seq<Op>)
    ensures db.Keys <= ApplyAll(db, ops).Keys
    decreases |ops|
  {
    if ops != [] {
      match ops[0] {
        case OpStore(_, _, _) =>
        case OpBatch(urls, ids) =>
          if Prepare(db, urls, ids).Ok? {
            PutAllGrows(db, Prepare(db, urls, ids).value);
          }
        case OpDelete(urls) => DeleteAllExactly(db, urls);
      }
      KeysStay(Apply(db, ops[0]), ops[1..]);
    }
  }

  /** Once Get serves a URL it serves the same URL until the first delete entry with that
      short and the owner's id is applied, and that entry ends it. */
  lemma {:induction false} LiveUntilDeleted(db: DB, key: string, ops: seq<Op>, n: nat)
    requires Get(db, key).Ok? && n <= |ops|
    requires forall i :: 0 <= i < |ops| ==> !Overwrites(ops[i])
    requires forall i :: 0 <= i < n ==> !Deletes(ops[i], key, db[key].userID)
    ensures Get(ApplyAll(db, ops[..n]), key) == Get(db, key)
    ensures n < |ops| && Deletes(ops[n], key, db[key].userID) ==>
      Get(ApplyAll(db, ops[..n + 1]), key) == Err(Deleted)
    decreases |ops|
  {
    if n > 0 {
      LiveStep(db, key, ops[0]);
      assert ops[..n][1..] == ops[1..][..n - 1];
      if n < |ops| {
        assert ops[..n + 1][1..] == ops[1..][..n];
      }
      LiveUntilDeleted(Apply(db, ops[0]), key, ops[1..], n - 1);
    } else if |ops| > 0 {
      LiveStep(db, key, ops[0]);
      assert ops[..1][1..] == [];
    }
  }

  // ---------------------------------------------------------------- batches

  /** The same urls stored one by one without overwriting, stopping at the first error. */
  function StoreEach(db: DB, urls: seq<URL>, ids: Supply): Result<DB>
    decreases |urls|
  {
    if urls == [] then Ok(db)
    else
      match Store(db, urls[0], false, Next(ids))
      case Err(e) => Err(e)
      case Ok(next) => StoreEach(next, urls[1..], Rest(ids))
  }

  ghost predicate DistinctShorts(urls: seq<URL>) {
    forall i, j :: 0 <= i < j < |urls| ==> urls[i].short != urls[j].short
  }

  /** Putting an unrelated record first does not change what the checking pass finds. */
  lemma {:induction false} PrepareFrame(db: DB, r: Record, urls: seq<URL>, ids: Supply)
    requires forall u :: u in urls ==> u.short != r.shortURL
    ensures Prepare(Put(db, r), urls, ids) == Prepare(db, urls, ids)
  {
    if urls != [] {
      PrepareFrame(db, r, urls[1..], Rest(ids));
    }
  }

  lemma {:induction false} DistinctBatchIsStores(db: DB, urls: seq<URL>, ids: Supply)
    requires DistinctShorts(urls)
    ensures StoreBatch(db, urls, ids) == StoreEach(db, urls, ids)
    decreases |urls|
  {
    if urls != [] && Store(db, urls[0], false, Next(ids)).Ok? {
      var r := NewRecord(urls[0], Next(ids).value);
      forall u | u in urls[1..] ensures u.short != r.shortURL {
        var j :| 0 <= j < |urls[1..]| && urls[1..][j] == u;
        assert urls[0].short != urls[j + 1].short;
      }
      PrepareFrame(db, r, urls[1..], Rest(ids));
      DistinctBatchIsStores(Put(db, r), urls[1..], Rest(ids));
    }
  }

  lemma DistinctCons(u: URL, rest: seq<URL>)
    requires DistinctShorts(rest) && forall x :: x in rest ==> x.short != u.short
    ensures DistinctShorts([u] + rest)
  {
  }

  /** Whatever is live blocks the sequence as well. */
  lemma {:induction false} StoresNeedRoom(db: DB, urls: seq<URL>, ids: Supply)
    requires StoreEach(db, urls, ids).Ok?
    ensures DistinctShorts(urls)
    ensures forall u :: u in urls ==> !Live(db, u.short)
    decreases |urls|
  {
    if urls != [] {
      StoresNeedRoom(Store(db, urls[0], false, Next(ids)).value, urls[1..], Rest(ids));
      DistinctCons(urls[0], urls[1..]);
      assert urls == [urls[0]] + urls[1..];
    }
  }

  /** For any batch at all: the sequence of stores succeeds exactly when the batch does and
      its shorts are distinct, and then both give the same database. */
  lemma BatchAgainstStores(db: DB, urls: seq<URL>, ids: Supply)
    ensures StoreEach(db, urls, ids).Ok? <==> StoreBatch(db, urls, ids).Ok? && DistinctShorts(urls)
    ensures DistinctShorts(urls) ==> StoreBatch(db, urls, ids) == StoreEach(db, urls, ids)
  {
    if DistinctShorts(urls) {
      DistinctBatchIsStores(db, urls, ids);
    }
    if StoreEach(db, urls, ids).Ok? {
      StoresNeedRoom(db, urls, ids);
    }
  }

  lemma {:induction false} PutAllLast(db: DB, records: seq<Record>, i: nat)
    requires i < |records| && forall j :: i < j < |records| ==> records[j].shortURL != records[i].shortURL
    ensures var next := PutAll(db, records); records[i].shortURL in next && next[records[i].shortURL] == records[i]
    decreases |records|
  {
    if i == 0 {
      PutAllFrame(Put(db, records[0]), records[1..], records[0].shortURL);
    } else {
      PutAllLast(Put(db, records[0]), records[1..], i - 1);
    }
  }

  lemma {:induction false} PrepareRecords(db: DB, urls: seq<URL>, ids: Supply)
    requires Prepare(db, urls, ids).Ok?
    ensures |ids| >= |urls| && |Prepare(db, urls, ids).value| == |urls|
    ensures forall i :: 0 <= i < |urls| ==>
      ids[i].Some? && Prepare(db, urls, ids).value[i] == NewRecord(urls[i], ids[i].value)
  {
    if urls != [] {
      PrepareRecords(db, urls[1..], Rest(ids));
    }
  }

  /** Key k is not among the shorts of the batch. */
  ghost predicate Absent(urls: seq<URL>, k: string) {
    forall u :: u in urls ==> u.short != k
  }

  /** Index i is the last of the batch with its short. */
  ghost predicate LastOfShort(urls: seq<URL>, i: nat) {
    i < |urls| && forall j :: i < j < |urls| ==> urls[j].short != urls[i].short
  }

  /** After a successful batch every short of the batch holds its last entry, and every other
      key is as it was. */
  lemma BatchLastWins(db: DB, urls: seq<URL>, ids: Supply)
    requires StoreBatch(db, urls, ids).Ok?
    ensures |ids| >= |urls| && forall i :: 0 <= i < |urls| ==> ids[i].Some?
    ensures var next := StoreBatch(db, urls, ids).value;
      && (forall i: nat :: LastOfShort(urls, i) ==>
            urls[i].short in next &&
            next[urls[i].short] == Record(ids[i].value, urls[i].short, urls[i].orig, urls[i].userID, false))
      && (forall k :: Absent(urls, k) ==> (k in next <==> k in db) && (k in db ==> next[k] == db[k]))
  {
    PrepareRecords(db, urls, ids);
    var records := Prepare(db, urls, ids).value;
    forall i: nat | LastOfShort(urls, i)
      ensures urls[i].short in PutAll(db, records)
      ensures PutAll(db, records)[urls[i].short] == NewRecord(urls[i], ids[i].value)
    {
      assert records[i] == NewRecord(urls[i], ids[i].value);
      forall j | i < j < |records| ensures records[j].shortURL != records[i].shortURL {
        assert records[j] == NewRecord(urls[j], ids[j].value);
      }
      PutAllLast(db, records, i);
    }
    forall k | Absent(urls, k)
      ensures (k in PutAll(db, records) <==> k in db) && (k in db ==> PutAll(db, records)[k] == db[k])
    {
      forall r | r in records ensures r.shortURL != k {
        var i :| 0 <= i < |records| && records[i] == r;
        assert urls[i] in urls;
      }
      PutAllFrame(db, records, k);
    }
  }
}
