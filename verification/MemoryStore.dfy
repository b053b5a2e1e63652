/** The in-memory storage object.  Its mutex makes every method one step; what each does to
    the map is stated with the database functions of MemoryDb. */
module MemoryStore {
  import opened Sequences
  import opened MemoryDb
  import M = MemoryDb

  datatype Stats = Stats(urls: nat, users: nat)

  /** The users that own at least one URL that is not deleted. */
  ghost function LiveUsers(db: DB): set<string> {
    set k | k in db && !db[k].deleted :: db[k].userID
  }

  lemma {:induction false} DistinctSize(keys: seq<string>, own: set<string>)
    requires Distinct(keys) && forall k :: k in own <==> k in keys
    ensures |own| == |keys|
    decreases |keys|
  {
    if keys == [] {
      assert own == {};
    } else {
      assert keys == [keys[0]] + keys[1..];
      assert keys[0] !in keys[1..];
      DistinctSize(keys[1..], own - {keys[0]});
    }
  }

  /** urls lists the records of one user, deleted ones included, each key once. */
  ghost predicate Lists(db: DB, user: string, keys: seq<string>, urls: seq<URL>) {
    && Distinct(keys)
    && (forall k :: k in keys <==> k in db && db[k].userID == user)
    && |urls| == |keys|
    && forall i :: 0 <= i < |keys| ==>
         keys[i] in db && urls[i] == URL(db[keys[i]].shortURL, db[keys[i]].originalURL, user, 0)
  }

  /** So there is one entry for each record of the user, and no other. */
  lemma ListsExactly(db: DB, user: string, keys: seq<string>, urls: seq<URL>)
    requires Lists(db, user, keys, urls)
    ensures |urls| == |set k | k in db && db[k].userID == user|
    ensures forall k :: k in db && db[k].userID == user ==> URL(db[k].shortURL, db[k].originalURL, user, 0) in urls
    ensures forall u :: u in urls ==>
      exists k :: k in db && db[k].userID == user && u == URL(db[k].shortURL, db[k].originalURL, user, 0)
  {
    var own := set k | k in db && db[k].userID == user;
    assert forall k :: k in own <==> k in keys;
    DistinctSize(keys, own);
    forall k | k in db && db[k].userID == user ensures URL(db[k].shortURL, db[k].originalURL, user, 0) in urls {
      assert k in keys;
      var i :| 0 <= i < |keys| && keys[i] == k;
      assert urls[i] == URL(db[k].shortURL, db[k].originalURL, user, 0);
    }
    forall u | u in urls
      ensures exists k :: k in db && db[k].userID == user && u == URL(db[k].shortURL, db[k].originalURL, user, 0)
    {
      var i :| 0 <= i < |urls| && urls[i] == u;
      assert keys[i] in keys;
    }
  }

  /** The result of the checking pass over a batch whose first records are known. */
  ghost function After(done: seq<Record>, rest: Result<seq<Record>>): Result<seq<Record>> {
    match rest case Err(e) => Err(e) case Ok(records) => Ok(done + records)
  }

  lemma AfterNone(rest: Result<seq<Record>>)
    ensures After([], rest) == rest
  {
    if rest.Ok? {
      assert [] + rest.value == rest.value;
    }
  }

  lemma AfterOne(done: seq<Record>, r: Record, rest: Result<seq<Record>>)
    ensures After(done + [r], rest) == After(done, After([r], rest))
  {
    if rest.Ok? {
      assert (done + [r]) + rest.value == done + ([r] + rest.value);
    }
  }

  lemma LiveUsersGrow(before: DB, k: string, r: Record)
    requires k !in before
    ensures LiveUsers(before[k := r]) == LiveUsers(before) + if r.deleted then {} else {r.userID}
  {
    var after := before[k := r];
    forall u | u in LiveUsers(before) ensures u in LiveUsers(after) {
      var j :| j in before && !before[j].deleted && before[j].userID == u;
      assert j in after && after[j] == before[j];
    }
    if !r.deleted {
      assert k in after && after[k] == r;
    }
  }

  /** The counting loop of Stats, for any order in which the map is visited. */
  method CountStats(db: DB) returns (r: Stats)
    ensures r.urls == |db|
    ensures r.users == |LiveUsers(db)|
    ensures forall u :: u in LiveUsers(db) <==> exists k :: k in db && !db[k].deleted && db[k].userID == u
  {
    var seen: set<string> := {};
    var count := 0;
    var todo := db.Keys;
    ghost var visited: DB := map[];
    while todo != {}
      invariant todo <= db.Keys
      invariant visited == map k | k in db && k !in todo :: db[k]
      invariant seen == LiveUsers(visited) && count == |seen|
      decreases todo
    {
      var k :| k in todo;
      LiveUsersGrow(visited, k, db[k]);
      visited := visited[k := db[k]];
      if db[k].userID !in seen {
        if !db[k].deleted {
          seen := seen + {db[k].userID};
          count := count + 1;
        }
      }
      todo := todo - {k};
    }
    assert visited == db;
    r := Stats(|db|, count);
  }

  class Memory {
    var DB: M.DB

    constructor ()
      ensures DB == map[]
    {
      DB := map[];
    }

    method Get(key: string) returns (r: Result<string>)
      ensures r == M.Get(DB, key)
      ensures r == Err(NotFound) <==> key !in DB
      ensures r == Err(M.Deleted) <==> key in DB && DB[key].deleted
      ensures key in DB && !DB[key].deleted ==> r == Ok(DB[key].originalURL)
    {
      if key !in DB {
        return Err(NotFound);
      }
      var record := DB[key];
      if record.deleted {
        return Err(M.Deleted);
      }
      return Ok(record.originalURL);
    }

    /** `id` is what the UUID generator returns if it is asked. */
    method Store(url: URL, overwrite: bool, id: Option<string>) returns (err: Option<StoreError>)
      modifies this
      ensures DB == Apply(old(DB), OpStore(url, overwrite, id))
      ensures err == match M.Store(old(DB), url, overwrite, id) case Ok(_) => None case Err(e) => Some(e)
    {
      if url.short in DB && !overwrite && !DB[url.short].deleted {
        return Some(AlreadyExists);
      }
      match id
      case None => return Some(NoUuid);
      case Some(u) =>
        DB := DB[url.short := Record(u, url.short, url.orig, url.userID, false)];
        return None;
    }

    /** All or nothing: a first loop checks every entry and collects the UUIDs, a second one
        writes the records. */
    method StoreBatch(urls: seq<URL>, ids: Supply) returns (err: Option<StoreError>)
      modifies this
      ensures DB == Apply(old(DB), OpBatch(urls, ids))
      ensures err == match M.StoreBatch(old(DB), urls, ids) case Ok(_) => None case Err(e) => Some(e)
      ensures err != None ==> DB == old(DB)
    {
      var keyIDs := new string[|urls|](_ => "");
      var supply := ids;
      AfterNone(Prepare(DB, urls, ids));
      assert urls[0..] == urls;
      ghost var done: seq<Record> := [];
      for i := 0 to |urls|
        invariant DB == old(DB) && |done| == i
        invariant forall j :: 0 <= j < i ==> done[j] == NewRecord(urls[j], keyIDs[j])
        invariant Prepare(DB, urls, ids) == After(done, Prepare(DB, urls[i..], supply))
      {
        if urls[i].short in DB && !DB[urls[i].short].deleted {
          return Some(AlreadyExists);
        }
        var u := Next(supply);
        if u == None {
          return Some(NoUuid);
        }
        assert urls[i..][1..] == urls[i + 1..];
        keyIDs[i] := u.value;
        supply := Rest(supply);
        AfterOne(done, NewRecord(urls[i], u.value), Prepare(DB, urls[i + 1..], supply));
        done := done + [NewRecord(urls[i], u.value)];
      }
      assert done + [] == done;
      assert Prepare(DB, urls, ids) == Ok(done);
      assert done[0..] == done;
      for i := 0 to |urls|
        invariant PutAll(DB, done[i..]) == PutAll(old(DB), done)
        invariant forall j :: 0 <= j < |urls| ==> done[j] == NewRecord(urls[j], keyIDs[j])
      {
        assert done[i..][1..] == done[i + 1..];
        DB := DB[urls[i].short := Record(keyIDs[i], urls[i].short, urls[i].orig, urls[i].userID, false)];
      }
      return None;
    }

    method DeleteUserURLs(urls: seq<URL>) returns (num: nat)
      modifies this
      ensures DB == Apply(old(DB), OpDelete(urls))
      ensures num == DeleteCount(old(DB), urls)
      ensures num ==
        |set i: nat | i < |urls| && urls[i].short in old(DB) && old(DB)[urls[i].short].userID == urls[i].userID|
    {
      DeleteCountExactly(DB, urls);
      num := 0;
      for i := 0 to |urls|
        invariant DeleteAll(DB, urls[i..]) == DeleteAll(old(DB), urls)
        invariant num + DeleteCount(DB, urls[i..]) == DeleteCount(old(DB), urls)
      {
        assert urls[i..][1..] == urls[i + 1..];
        if urls[i].short in DB {
          var record := DB[urls[i].short];
          if record.userID == urls[i].userID {
            record := record.(deleted := true);
            DB := DB[urls[i].short := record];
            num := num + 1;
          }
        }
      }
    }

    method ListUserURLs(user: string) returns (urls: seq<URL>)
      ensures exists keys :: Lists(DB, user, keys, urls)
      ensures |urls| == |set k | k in DB && DB[k].userID == user|
      ensures forall k :: k in DB && DB[k].userID == user ==> URL(DB[k].shortURL, DB[k].originalURL, user, 0) in urls
    {
      urls := [];
      ghost var keys: seq<string> := [];
      var todo := DB.Keys;
      while todo != {}
        invariant todo <= DB.Keys
        invariant Lists(map k | k in DB && k !in todo :: DB[k], user, keys, urls)
        decreases todo
      {
        var k :| k in todo;
        if DB[k].userID == user {
          urls := urls + [URL(DB[k].shortURL, DB[k].originalURL, user, 0)];
          keys := keys + [k];
        }
        todo := todo - {k};
      }
      assert DB == map k | k in DB && k !in todo :: DB[k];
      ListsExactly(DB, user, keys, urls);
    }

    /** The copying loop visits the keys in any order. */
    method Dump() returns (dump: M.DB)
      ensures dump == DB
    {
      dump := map[];
      var todo := DB.Keys;
      while todo != {}
        invariant todo <= DB.Keys
        invariant dump == map k | k in DB && k !in todo :: DB[k]
        decreases todo
      {
        var k :| k in todo;
        dump := dump[k := DB[k]];
        todo := todo - {k};
      }
    }
  }
}
