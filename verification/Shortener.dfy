/** Shortening single URLs and batches over the memory store, and queueing deletes. */
module Shortener {
  import opened Sequences
  import opened MemoryDb
  import opened Resolver
  import MemoryStore
  import FlusherSlice

  const STORE_RETRIES: nat := 3

  datatype Config = Config(servedScheme: string, redirectScheme: string, host: string, pathLength: nat)
  datatype User = User(id: string, isNew: bool)

  /** What url.Parse yields: the scheme, and the text of the parsed URL. */
  datatype Parsed = Parsed(scheme: string, text: string)
  type Parser = string -> Option<Parsed>

  /** The error of storeURL: the store's own, or the one that wraps the last refusal. */
  datatype StoreFailure = FromStore(error: StoreError) | CannotStore(last: StoreError)
  datatype Failure = InvalidURL | UnsupportedURLScheme | StorageFailure(cause: StoreFailure)
  datatype Shortened = Served(url: string) | Refused(reason: Failure)

  function ServedURL(cfg: Config, path: string): string {
    cfg.servedScheme + "://" + cfg.host + "/" + path
  }

  /** Attempt i draws its key with draws(i) and would get its UUID from ids(i). */
  type Draws = nat -> (nat -> nat)
  type Ids = nat -> Option<string>

  // ---------------------------------------------------------------- one URL

  datatype Attempted = Attempted(db: DB, path: string, failure: Option<StoreFailure>)

  /** The retry loop from attempt i on. */
  function TryFrom(cfg: Config, db: DB, user: string, text: string, draws: Draws, ids: Ids, i: nat): Attempted
    requires 1 <= i <= STORE_RETRIES
    decreases STORE_RETRIES - i
  {
    var key := Key(cfg.pathLength, draws(i));
    match Store(db, URL(key, text, user, 0), false, ids(i))
    case Ok(next) => Attempted(next, key, None)
    case Err(e) =>
      if e != AlreadyExists then Attempted(db, key, Some(FromStore(e)))
      else if i == STORE_RETRIES then Attempted(db, key, Some(CannotStore(e)))
      else TryFrom(cfg, db, user, text, draws, ids, i + 1)
  }

  function ShortenIn(cfg: Config, db: DB, parse: Parser, user: string, orig: string, draws: Draws,
      ids: Ids): (DB, Shortened) {
    match parse(orig)
    case None => (db, Refused(InvalidURL))
    case Some(u) =>
      if cfg.redirectScheme != "" && u.scheme != cfg.redirectScheme then (db, Refused(UnsupportedURLScheme))
      else
        var a := TryFrom(cfg, db, user, u.text, draws, ids, 1);
        match a.failure
        case Some(f) => (a.db, Refused(StorageFailure(f)))
        case None => (a.db, Served(ServedURL(cfg, a.path)))
  }

  method StoreURL(cfg: Config, store: MemoryStore.Memory, user: string, text: string, draws: Draws, ids: Ids)
    returns (path: string, failure: Option<StoreFailure>)
    modifies store
    ensures Attempted(store.DB, path, failure) == TryFrom(cfg, old(store.DB), user, text, draws, ids, 1)
  {
    var err: Option<StoreError> := None;
    path := "";
    for i := 1 to STORE_RETRIES + 1
      invariant i > 1 ==> err == Some(AlreadyExists)
      invariant store.DB == old(store.DB)
      invariant i <= STORE_RETRIES ==>
        TryFrom(cfg, store.DB, user, text, draws, ids, i) == TryFrom(cfg, old(store.DB), user, text, draws, ids, 1)
      invariant i > STORE_RETRIES ==>
        TryFrom(cfg, old(store.DB), user, text, draws, ids, 1) ==
        Attempted(old(store.DB), path, Some(CannotStore(AlreadyExists)))
    {
      path := RandString(cfg.pathLength, draws(i));
      err := store.Store(URL(path, text, user, 0), false, ids(i));
      match err
      case Some(AlreadyExists) => continue;
      case Some(e) => return path, Some(FromStore(e));
      case None => return path, None;
    }
    return path, Some(CannotStore(AlreadyExists));
  }

  method Shorten(cfg: Config, store: MemoryStore.Memory, parse: Parser, user: User, orig: string,
      draws: Draws, ids: Ids)
    returns (r: Shortened)
    modifies store
    ensures (store.DB, r) == ShortenIn(cfg, old(store.DB), parse, user.id, orig, draws, ids)
  {
    match parse(orig)
    case None => return Refused(InvalidURL);
    case Some(u) =>
      if cfg.redirectScheme != "" && u.scheme != cfg.redirectScheme {
        return Refused(UnsupportedURLScheme);
      }
      var path, failure := StoreURL(cfg, store, user.id, u.text, draws, ids);
      match failure
      case Some(f) => return Refused(StorageFailure(f));
      case None => return Served(ServedURL(cfg, path));
  }

  /** Attempt k is the first whose key is not in use. */
  ghost predicate FirstFree(cfg: Config, db: DB, draws: Draws, k: nat) {
    && 1 <= k <= STORE_RETRIES
    && (forall j :: 1 <= j < k ==> Live(db, Key(cfg.pathLength, draws(j))))
    && !Live(db, Key(cfg.pathLength, draws(k)))
  }

  lemma {:induction false} TryExactly(cfg: Config, db: DB, user: string, text: string,
      draws: Draws, ids: Ids, i: nat, k: nat)
    requires 1 <= i <= k && FirstFree(cfg, db, draws, k)
    ensures TryFrom(cfg, db, user, text, draws, ids, i) ==
      var key := Key(cfg.pathLength, draws(k));
      match ids(k)
      case None => Attempted(db, key, Some(FromStore(NoUuid)))
      case Some(id) => Attempted(db[key := NewRecord(URL(key, text, user, 0), id)], key, None)
    decreases k - i
  {
    if i < k {
      TryExactly(cfg, db, user, text, draws, ids, i + 1, k);
    }
  }

  lemma {:induction false} TryGivesUp(cfg: Config, db: DB, user: string, text: string, draws: Draws, ids: Ids, i: nat)
    requires 1 <= i <= STORE_RETRIES
    requires forall j :: 1 <= j <= STORE_RETRIES ==> Live(db, Key(cfg.pathLength, draws(j)))
    ensures var a := TryFrom(cfg, db, user, text, draws, ids, i);
      a.db == db && a.failure == Some(CannotStore(AlreadyExists))
    decreases STORE_RETRIES - i
  {
    if i < STORE_RETRIES {
      TryGivesUp(cfg, db, user, text, draws, ids, i + 1);
    }
  }

  lemma FirstFreeOrNone(cfg: Config, db: DB, draws: Draws)
    ensures (exists k :: FirstFree(cfg, db, draws, k)) <==>
      !(forall j :: 1 <= j <= STORE_RETRIES ==> Live(db, Key(cfg.pathLength, draws(j))))
  {
    if !Live(db, Key(cfg.pathLength, draws(1))) {
      assert FirstFree(cfg, db, draws, 1);
    } else if !Live(db, Key(cfg.pathLength, draws(2))) {
      assert FirstFree(cfg, db, draws, 2);
    } else if !Live(db, Key(cfg.pathLength, draws(3))) {
      assert FirstFree(cfg, db, draws, 3);
    }
  }

  /** The outcome of Shorten, for every input: it serves a URL exactly when the original
      parses with the right scheme and, among at most three drawn keys, the first that is
      free gets a UUID; otherwise nothing changes. */
  lemma ShortenServesExactly(cfg: Config, db: DB, parse: Parser, user: string, orig: string, draws: Draws, ids: Ids)
    ensures ShortenIn(cfg, db, parse, user, orig, draws, ids).1.Served? <==>
      parse(orig).Some? && (cfg.redirectScheme == "" || parse(orig).value.scheme == cfg.redirectScheme) &&
      exists k :: FirstFree(cfg, db, draws, k) && ids(k).Some?
    ensures ShortenIn(cfg, db, parse, user, orig, draws, ids).1.Refused? ==>
      ShortenIn(cfg, db, parse, user, orig, draws, ids).0 == db
  {
    if parse(orig).Some? {
      FirstFreeOrNone(cfg, db, draws);
      if k :| FirstFree(cfg, db, draws, k) {
        TryExactly(cfg, db, user, parse(orig).value.text, draws, ids, 1, k);
        assert forall h :: FirstFree(cfg, db, draws, h) ==> h == k;
      } else {
        TryGivesUp(cfg, db, user, parse(orig).value.text, draws, ids, 1);
      }
    }
  }

  /** Key number j of the draws is in use. */
  ghost predicate Taken(cfg: Config, db: DB, draws: Draws, j: nat) {
    Live(db, Key(cfg.pathLength, draws(j)))
  }

  ghost predicate ParsesWell(cfg: Config, parse: Parser, orig: string) {
    parse(orig).Some? && (cfg.redirectScheme == "" || parse(orig).value.scheme == cfg.redirectScheme)
  }

  /** Which refusal it is otherwise: the original does not parse; it parses with a scheme other
      than the configured one; all three drawn keys are in use; or the first free one gets no
      UUID. */
  lemma ShortenRefusesExactly(cfg: Config, db: DB, parse: Parser, user: string, orig: string, draws: Draws, ids: Ids)
    ensures var r := ShortenIn(cfg, db, parse, user, orig, draws, ids).1;
      && (r == Refused(InvalidURL) <==> parse(orig) == None)
      && (r == Refused(UnsupportedURLScheme) <==>
            parse(orig).Some? && cfg.redirectScheme != "" && parse(orig).value.scheme != cfg.redirectScheme)
      && (r == Refused(StorageFailure(CannotStore(AlreadyExists))) <==>
            ParsesWell(cfg, parse, orig) &&
            Taken(cfg, db, draws, 1) && Taken(cfg, db, draws, 2) && Taken(cfg, db, draws, 3))
      && (r == Refused(StorageFailure(FromStore(NoUuid))) <==>
            ParsesWell(cfg, parse, orig) && exists k :: FirstFree(cfg, db, draws, k) && ids(k) == None)
  {
    if ParsesWell(cfg, parse, orig) {
      FirstFreeOrNone(cfg, db, draws);
      if k :| FirstFree(cfg, db, draws, k) {
        TryExactly(cfg, db, user, parse(orig).value.text, draws, ids, 1, k);
        assert forall h :: FirstFree(cfg, db, draws, h) ==> h == k;
      } else {
        TryGivesUp(cfg, db, user, parse(orig).value.text, draws, ids, 1);
      }
    }
  }

  /** When it serves one, the first free key, absent or a tombstone before, is bound and no
      other key changes; the served URL ends in that key; and resolving it gives the parsed
      URL. */
  lemma ShortenThenResolve(cfg: Config, db: DB, parse: Parser, user: string, orig: string,
      draws: Draws, ids: Ids, k: nat)
    requires ShortenIn(cfg, db, parse, user, orig, draws, ids).1.Served? && FirstFree(cfg, db, draws, k)
    ensures parse(orig).Some? && ids(k).Some?
    ensures var (next, r) := ShortenIn(cfg, db, parse, user, orig, draws, ids);
      var key := Key(cfg.pathLength, draws(k));
      && !Live(db, key)
      && next == db[key := Record(ids(k).value, key, parse(orig).value.text, user, false)]
      && r.url == cfg.servedScheme + "://" + cfg.host + "/" + key
      && ResolveIn(next, "/" + key) == Resolved(parse(orig).value.text)
  {
    TryExactly(cfg, db, user, parse(orig).value.text, draws, ids, 1, k);
    GeneratedKeyResolves(ShortenIn(cfg, db, parse, user, orig, draws, ids).0, cfg.pathLength, draws(k));
  }

  /** ... and keeps giving it through any later operations of any users, until the owner
      deletes the key. */
  lemma ShortenedStaysResolvable(cfg: Config, db: DB, parse: Parser, user: string, orig: string,
                                 draws: Draws, ids: Ids, k: nat, ops: seq<Op>)
    requires ShortenIn(cfg, db, parse, user, orig, draws, ids).1.Served? && FirstFree(cfg, db, draws, k)
    requires forall i :: 0 <= i < |ops| ==>
      !Overwrites(ops[i]) && !Deletes(ops[i], Key(cfg.pathLength, draws(k)), user)
    ensures parse(orig).Some?
    ensures ResolveIn(ApplyAll(ShortenIn(cfg, db, parse, user, orig, draws, ids).0, ops),
      "/" + Key(cfg.pathLength, draws(k))) == Resolved(parse(orig).value.text)
  {
    ShortenThenResolve(cfg, db, parse, user, orig, draws, ids, k);
    var next := ShortenIn(cfg, db, parse, user, orig, draws, ids).0;
    LiveUntilDeleted(next, Key(cfg.pathLength, draws(k)), ops, |ops|);
    assert ops[..|ops|] == ops;
    GeneratedKeyResolves(ApplyAll(next, ops), cfg.pathLength, draws(k));
  }

  // ---------------------------------------------------------------- batches

  datatype BatchURL = BatchURL(id: string, url: string)
  datatype BatchShortened = BatchShortened(id: string, short: string)
  datatype BatchResult = Batch(result: seq<BatchShortened>) | BatchRefused(error: StoreError)

  function BatchURLs(cfg: Config, user: string, batch: seq<BatchURL>, draws: Draws): seq<URL> {
    seq(|batch|, i requires 0 <= i < |batch| => URL(Key(cfg.pathLength, draws(i)), batch[i].url, user, 0))
  }

  method ShortenBatch(cfg: Config, store: MemoryStore.Memory, user: User, batch: seq<BatchURL>,
      draws: Draws, ids: Supply)
    returns (r: BatchResult)
    modifies store
    ensures store.DB == Apply(old(store.DB), OpBatch(BatchURLs(cfg, user.id, batch, draws), ids))
    ensures r.Batch? <==> StoreBatch(old(store.DB), BatchURLs(cfg, user.id, batch, draws), ids).Ok?
    ensures r.BatchRefused? ==> store.DB == old(store.DB)
    ensures r.Batch? ==> |r.result| == |batch| && forall i :: 0 <= i < |batch| ==>
      r.result[i] == BatchShortened(batch[i].id, ServedURL(cfg, Key(cfg.pathLength, draws(i))))
  {
    var urls := new URL[|batch|](_ => URL("", "", "", 0));
    for i := 0 to |batch|
      invariant forall j :: 0 <= j < i ==> urls[j] == BatchURLs(cfg, user.id, batch, draws)[j]
      invariant store.DB == old(store.DB)
    {
      var short := RandString(cfg.pathLength, draws(i));
      urls[i] := URL(short, batch[i].url, user.id, 0);
    }
    assert urls[..] == BatchURLs(cfg, user.id, batch, draws);
    var err := store.StoreBatch(urls[..], ids);
    if err.Some? {
      return BatchRefused(err.value);
    }
    var result: seq<BatchShortened> := [];
    for i := 0 to |batch|
      invariant |result| == i
      invariant forall j :: 0 <= j < i ==>
        result[j] == BatchShortened(batch[j].id, ServedURL(cfg, Key(cfg.pathLength, draws(j))))
      invariant urls[..] == BatchURLs(cfg, user.id, batch, draws)
    {
      assert urls[i] == urls[..][i];
      result := result + [BatchShortened(batch[i].id, ServedURL(cfg, urls[i].short))];
    }
    return Batch(result);
  }

  lemma SameShort(urls: seq<URL>, i: nat, j: nat)
    requires DistinctShorts(urls) && i < |urls| && j < |urls| && urls[i].short == urls[j].short
    ensures i == j
  {
  }

  /** After a successful batch the key served at index i holds the record of the last index
      with the same key, owned by the user, and resolves to the URL of that index; so it
      resolves to the URL of its own index exactly when that URL is the same, as it is when
      the drawn keys are distinct.  Other keys are unchanged. */
  lemma BatchThenResolve(cfg: Config, db: DB, user: string, batch: seq<BatchURL>, draws: Draws,
      ids: Supply, i: nat, last: nat)
    requires StoreBatch(db, BatchURLs(cfg, user, batch, draws), ids).Ok?
    requires i < |batch| && LastOfShort(BatchURLs(cfg, user, batch, draws), last)
    requires Key(cfg.pathLength, draws(last)) == Key(cfg.pathLength, draws(i))
    ensures var next := StoreBatch(db, BatchURLs(cfg, user, batch, draws), ids).value;
      var key := Key(cfg.pathLength, draws(i));
      && !Live(db, key)
      && last < |ids| && ids[last].Some? && key in next
      && next[key] == Record(ids[last].value, key, batch[last].url, user, false)
      && ResolveIn(next, "/" + key) == Resolved(batch[last].url)
      && (ResolveIn(next, "/" + key) == Resolved(batch[i].url) <==> batch[last].url == batch[i].url)
      && (DistinctShorts(BatchURLs(cfg, user, batch, draws)) ==> ResolveIn(next, "/" + key) == Resolved(batch[i].url))
      && forall k :: k in db && (forall j :: 0 <= j < |batch| ==> Key(cfg.pathLength, draws(j)) != k) ==>
           k in next && next[k] == db[k]
  {
    var urls := BatchURLs(cfg, user, batch, draws);
    var next := StoreBatch(db, urls, ids).value;
    BatchLastWins(db, urls, ids);
    PrepareSkipsLive(db, urls, ids);
    GeneratedKeyResolves(next, cfg.pathLength, draws(i));
    assert urls[last].short == urls[i].short;
    forall k | k in db && (forall j :: 0 <= j < |batch| ==> Key(cfg.pathLength, draws(j)) != k)
      ensures k in next && next[k] == db[k]
    {
      assert Absent(urls, k);
    }
    if DistinctShorts(urls) {
      SameShort(urls, i, last);
    }
  }

  // ---------------------------------------------------------------- queueing deletes

  datatype DeleteResult = Unauthorized | EmptyBatch | AllQueued | CannotQueue | Hangs

  function DeleteEntry(user: string, short: string, ts: int): URL { URL(short, "", user, ts) }

  function DeleteEntries(user: string, shorts: seq<string>, ts: int): seq<URL> {
    seq(|shorts|, i requires 0 <= i < |shorts| => DeleteEntry(user, shorts[i], ts))
  }

  /** One Push, in terms of the buffer's contents. */
  method QueueOne(flusher: FlusherSlice.Flusher<URL>, entry: URL) returns (r: FlusherSlice.PushResult)
    requires flusher.Valid()
    modifies flusher`buf, flusher`len, flusher`size, flusher`token, flusher`flushNeed, flusher.buf
    ensures flusher.Valid() && (flusher.buf == old(flusher.buf) || fresh(flusher.buf))
    ensures r.ShuttingDown? <==> old(flusher.shutdown)
    ensures flusher.buf[..flusher.len] == old(flusher.buf[..flusher.len]) + (if r.ShuttingDown? then [] else [entry])
    ensures r.BlockedInSend? ==> flusher.token && !flusher.flushNeed
  {
    ghost var before := flusher.Mem();
    r := flusher.Push(entry);
    ghost var after := flusher.Mem();
    assert after.buf == before.buf + (if r.ShuttingDown? then [] else [entry]);
    assert r.BlockedInSend? ==> after.token && !after.flushNeed;
  }

  /** The queue gained the first n of these entries and nothing else. */
  ghost predicate Gained(before: seq<URL>, after: seq<URL>, entries: seq<URL>, n: nat) {
    n <= |entries| && after == before + entries[..n]
  }

  /** Spelled out: behind what it had, the queue holds one entry for each of the first n keys, in
      the user's name and with the time of the request. */
  ghost predicate Queues(before: seq<URL>, after: seq<URL>, user: string, shorts: seq<string>, ts: int, n: nat) {
    && n <= |shorts| && |after| == |before| + n && before <= after
    && forall i :: 0 <= i < n ==>
         var e := after[|before| + i];
         e.short == shorts[i] && e.orig == "" && e.userID == user && e.ts == ts
  }

  /** Entries go to the queue one Push after the other, up to the first that is refused or
      does not come back: so the queue gains a prefix of the batch, all of it when
      everything was queued, nothing when the queue was shutting down. */
  method DeleteBatch(flusher: FlusherSlice.Flusher<URL>, user: User, shorts: seq<string>, ts: int)
    returns (r: DeleteResult, ghost n: nat)
    requires flusher.Valid()
    modifies flusher`buf, flusher`len, flusher`size, flusher`token, flusher`flushNeed, flusher.buf
    ensures flusher.Valid()
    ensures r == Unauthorized <==> user.isNew
    ensures r == EmptyBatch <==> !user.isNew && shorts == []
    ensures r == CannotQueue <==> !user.isNew && shorts != [] && old(flusher.shutdown)
    ensures Gained(old(flusher.buf[..flusher.len]), flusher.buf[..flusher.len], DeleteEntries(user.id, shorts, ts), n)
    ensures Queues(old(flusher.buf[..flusher.len]), flusher.buf[..flusher.len], user.id, shorts, ts, n)
    ensures r == AllQueued ==> n == |shorts|
    ensures r in {Unauthorized, EmptyBatch, CannotQueue} ==> n == 0
    ensures r == Hangs ==> n > 0 && flusher.token && !flusher.flushNeed
  {
    ghost var entries := DeleteEntries(user.id, shorts, ts);
    n := 0;
    assert entries[..0] == [];
    if user.isNew {
      return Unauthorized, 0;
    }
    if |shorts| == 0 {
      return EmptyBatch, 0;
    }
    for i := 0 to |shorts|
      invariant n == i
      invariant flusher.Valid() && (flusher.buf == old(flusher.buf) || fresh(flusher.buf))
      invariant n > 0 ==> !flusher.shutdown
      invariant Gained(old(flusher.buf[..flusher.len]), flusher.buf[..flusher.len], entries, n)
    {
      var pushed := QueueOne(flusher, DeleteEntry(user.id, shorts[i], ts));
      assert entries[..n + 1] == entries[..n] + [entries[n]];
      if pushed.ShuttingDown? {
        return CannotQueue, n;
      }
      n := n + 1;
      if pushed.BlockedInSend? {
        return Hangs, n;
      }
    }
    return AllQueued, n;
  }

  /** What any queued prefix of a user's entries does to the store, key by key: the records of
      that user whose keys are named become tombstones, and nothing else changes. */
  lemma DeletesExactly(db: DB, user: string, shorts: seq<string>, ts: int, n: nat)
    requires n <= |shorts|
    ensures var next := DeleteAll(db, DeleteEntries(user, shorts, ts)[..n]);
      && next.Keys == db.Keys
      && forall k :: k in db ==>
           next[k] == if k in shorts[..n] && db[k].userID == user then db[k].(deleted := true) else db[k]
  {
    var entries := DeleteEntries(user, shorts, ts)[..n];
    DeleteAllExactly(db, entries);
    forall k | k in db ensures Hit(db, entries, k) <==> k in shorts[..n] && db[k].userID == user {
      if k in shorts[..n] && db[k].userID == user {
        var i :| 0 <= i < n && shorts[i] == k;
        assert entries[i] in entries;
      }
      if Hit(db, entries, k) {
        var u :| u in entries && u.short == k && u.userID == db[k].userID;
        var i :| 0 <= i < n && entries[i] == u;
        assert shorts[..n][i] == k;
      }
    }
  }

  /** So a URL of the user's own is gone once its entry has been applied, */
  lemma OwnDeleted(db: DB, user: string, shorts: seq<string>, ts: int, key: string)
    requires key in shorts && key in db && db[key].userID == user
    ensures Get(DeleteAll(db, DeleteEntries(user, shorts, ts)), key) == Err(MemoryDb.Deleted)
  {
    DeletesExactly(db, user, shorts, ts, |shorts|);
    assert shorts[..|shorts|] == shorts;
    assert DeleteEntries(user, shorts, ts)[..|shorts|] == DeleteEntries(user, shorts, ts);
  }

  /** and whatever a user queues, records of other users stay as they are. */
  lemma DeletesOnlyOwn(db: DB, user: string, shorts: seq<string>, ts: int, n: nat, key: string)
    requires n <= |shorts| && key in db && db[key].userID != user
    ensures var next := DeleteAll(db, DeleteEntries(user, shorts, ts)[..n]); key in next && next[key] == db[key]
  {
    DeletesExactly(db, user, shorts, ts, n);
  }
}
