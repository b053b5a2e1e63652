/** The file behind the file store: one JSON record a line.  Strings stand for byte
    strings; the JSON, UUID, URL and base64 libraries are parameters. */
module RecordFile {
  import opened Sequences
  import opened MemoryDb

  /** What json.Unmarshal makes of a line: an error, a nil pointer for the literal null, or a
      record. */
  datatype Decoded = Malformed | Null | Decoded(record: Record)

  datatype Codec = Codec(
    marshal: Record -> string,
    unmarshal: string -> Decoded,
    uuidOk: string -> bool,
    urlOk: string -> bool,
    userOk: string -> bool)
  {
    /** Marshalling r gives one line that decodes to r again. */
    predicate Faithful(r: Record) {
      '\n' !in marshal(r) && unmarshal(marshal(r)) == Decoded.Decoded(r)
    }

    predicate Valid(r: Record) {
      uuidOk(r.uuid) && urlOk(r.originalURL) && userOk(r.userID)
    }
  }

  /** NilDereference is the panic that a line reading null causes. */
  datatype LoadError = BadJson | BadUuid | BadUrl | BadUser | NilDereference
  datatype Loading<+T> = Loaded(value: T) | LoadFailed(error: LoadError)

  function NewURLRecordFromBytes(c: Codec, data: string): (r: Loading<Record>)
    ensures r.Loaded? <==> c.unmarshal(data).Decoded? && c.Valid(c.unmarshal(data).record)
    ensures r.Loaded? ==> r.value == c.unmarshal(data).record
    ensures r == LoadFailed(BadJson) <==> c.unmarshal(data) == Malformed
    ensures r == LoadFailed(NilDereference) <==> c.unmarshal(data) == Null
    ensures r == LoadFailed(BadUuid) <==> c.unmarshal(data).Decoded? && !c.uuidOk(c.unmarshal(data).record.uuid)
    ensures r == LoadFailed(BadUrl) <==>
      c.unmarshal(data).Decoded? &&
      c.uuidOk(c.unmarshal(data).record.uuid) && !c.urlOk(c.unmarshal(data).record.originalURL)
    ensures r == LoadFailed(BadUser) <==>
      c.unmarshal(data).Decoded? &&
      c.uuidOk(c.unmarshal(data).record.uuid) && c.urlOk(c.unmarshal(data).record.originalURL) &&
      !c.userOk(c.unmarshal(data).record.userID)
  {
    match c.unmarshal(data)
    case Malformed => LoadFailed(BadJson)
    case Null => LoadFailed(NilDereference)
    case Decoded(record) =>
      if !c.uuidOk(record.uuid) then LoadFailed(BadUuid)
      else if !c.urlOk(record.originalURL) then LoadFailed(BadUrl)
      else if !c.userOk(record.userID) then LoadFailed(BadUser)
      else Loaded(record)
  }

  /** How many bytes ReadBytes('\n') returns: through the first newline, or all there are. */
  function LineLength(s: string): (n: nat)
    requires s != []
    ensures 1 <= n <= |s|
    ensures '\n' !in s[..n - 1]
    ensures n < |s| ==> s[n - 1] == '\n'
  {
    if s[0] == '\n' || |s| == 1 then 1
    else
      var n := LineLength(s[1..]);
      assert s[..n] == [s[0]] + s[1..][..n - 1];
      n + 1
  }

  /** Line after line into the database, a later record replacing an earlier one.  The last
      byte of every line is dropped, be it a newline or not. */
  function LoadInto(c: Codec, s: string, db: DB): Loading<DB>
    decreases |s|
  {
    if s == [] then Loaded(db)
    else
      var n := LineLength(s);
      match NewURLRecordFromBytes(c, s[..n - 1])
      case LoadFailed(e) => LoadFailed(e)
      case Loaded(record) => LoadInto(c, s[n..], Put(db, record))
  }

  function Load(c: Codec, s: string): Loading<DB> { LoadInto(c, s, map[]) }

  /** The lines of the given records. */
  function Lines(c: Codec, records: seq<Record>): string {
    if records == [] then [] else c.marshal(records[0]) + ['\n'] + Lines(c, records[1..])
  }

  /** keys lists every key of db once: one order in which a loop may visit the map. */
  ghost predicate Enumerates(db: DB, keys: seq<string>) {
    Distinct(keys) && forall k :: k in keys <==> k in db
  }

  ghost function RecordsAt(db: DB, keys: seq<string>): (r: seq<Record>)
    requires forall k :: k in keys ==> k in db
    ensures |r| == |keys| && forall i :: 0 <= i < |keys| ==> keys[i] in keys && r[i] == db[keys[i]]
  {
    seq(|keys|, i requires 0 <= i < |keys| => assert keys[i] in keys; db[keys[i]])
  }

  lemma {:induction false} LinesSnoc(c: Codec, records: seq<Record>, r: Record)
    ensures Lines(c, records + [r]) == Lines(c, records) + c.marshal(r) + ['\n']
  {
    if records == [] {
      assert records + [r] == [r];
    } else {
      assert (records + [r])[1..] == records[1..] + [r];
      LinesSnoc(c, records[1..], r);
    }
  }

  /** Writing the dump, for any order of the map's loop. */
  method DumpDB2File(c: Codec, dump: DB) returns (content: string)
    ensures exists keys :: Enumerates(dump, keys) && content == Lines(c, RecordsAt(dump, keys))
  {
    content := [];
    var todo := dump.Keys;
    ghost var keys: seq<string> := [];
    while todo != {}
      invariant todo <= dump.Keys && Distinct(keys)
      invariant forall k :: k in keys <==> k in dump && k !in todo
      invariant content == Lines(c, RecordsAt(dump, keys))
      decreases todo
    {
      var k :| k in todo;
      content := content + (c.marshal(dump[k]) + ['\n']);
      LinesSnoc(c, RecordsAt(dump, keys), dump[k]);
      ghost var more := keys + [k];
      assert forall j :: j in more <==> j in dump && j !in todo - {k};
      assert RecordsAt(dump, more) == RecordsAt(dump, keys) + [dump[k]];
      keys := more;
      todo := todo - {k};
    }
  }

  // ---------------------------------------------------------------- any content

  function Concat(lines: seq<string>): string {
    if lines == [] then [] else lines[0] + Concat(lines[1..])
  }

  /** The lines of s: one after the other they are s, none is empty, and a newline is the last
      byte of every line but the last and nowhere else. */
  ghost predicate CutOf(s: string, lines: seq<string>) {
    && Concat(lines) == s
    && (forall i :: 0 <= i < |lines| ==> lines[i] != [])
    && (forall i :: 0 <= i < |lines| - 1 ==> lines[i][|lines[i]| - 1] == '\n')
    && (forall i :: 0 <= i < |lines| ==> '\n' !in lines[i][..|lines[i]| - 1])
  }

  /** What a line decodes to: its last byte is dropped, be it a newline or not. */
  function DecodedLine(c: Codec, line: string): Decoded
    requires line != []
  {
    c.unmarshal(line[..|line| - 1])
  }

  /** The line decodes to a record that passes the three checks. */
  predicate GoodLine(c: Codec, line: string)
    requires line != []
  {
    match DecodedLine(c, line)
    case Decoded(r) => c.uuidOk(r.uuid) && c.urlOk(r.originalURL) && c.userOk(r.userID)
    case _ => false
  }

  /** Line i decodes to a record with this short URL. */
  ghost predicate LineFor(c: Codec, lines: seq<string>, i: int, key: string) {
    0 <= i < |lines| && lines[i] != [] &&
    DecodedLine(c, lines[i]).Decoded? && DecodedLine(c, lines[i]).record.shortURL == key
  }

  /** It is the last such line. */
  ghost predicate LastLineFor(c: Codec, lines: seq<string>, i: int, key: string) {
    LineFor(c, lines, i, key) && forall j :: i < j ==> !LineFor(c, lines, j, key)
  }

  /** It is the first line that is not good. */
  ghost predicate FirstBad(c: Codec, lines: seq<string>, i: int) {
    && 0 <= i < |lines| && lines[i] != [] && !GoodLine(c, lines[i])
    && forall j :: 0 <= j < i ==> lines[j] != [] && GoodLine(c, lines[j])
  }

  ghost predicate AllGood(c: Codec, lines: seq<string>) {
    forall i :: 0 <= i < |lines| ==> lines[i] != [] && GoodLine(c, lines[i])
  }

  /** What reading these lines comes to: it succeeds exactly when all are good, and then binds
      the short URLs of their records, each to the last record with it; it fails with the
      error of the first line that is not good. */
  ghost predicate Outcome(c: Codec, lines: seq<string>, r: Loading<DB>) {
    && (r.Loaded? <==> AllGood(c, lines))
    && (r.LoadFailed? ==> exists i ::
          FirstBad(c, lines, i) && NewURLRecordFromBytes(c, lines[i][..|lines[i]| - 1]) == LoadFailed(r.error))
    && (r.Loaded? ==> forall key :: key in r.value <==> exists i :: LineFor(c, lines, i, key))
    && (r.Loaded? ==> forall i, key :: LastLineFor(c, lines, i, key) ==>
          key in r.value && DecodedLine(c, lines[i]) == Decoded.Decoded(r.value[key]))
  }

  lemma FirstOfCut(s: string, lines: seq<string>)
    requires CutOf(s, lines) && lines != []
    ensures s != [] && LineLength(s) == |lines[0]|
    ensures s[..LineLength(s) - 1] == lines[0][..|lines[0]| - 1] && CutOf(s[LineLength(s)..], lines[1..])
  {
    var first := lines[0];
    var n := LineLength(s);
    assert s == first + Concat(lines[1..]);
    assert |lines| == 1 ==> Concat(lines[1..]) == [];
    assert forall k :: 0 <= k < |first| - 1 ==> first[k] == first[..|first| - 1][k];
    assert forall k :: 0 <= k < n - 1 ==> s[k] == s[..n - 1][k];
    assert s[|first| - 1] == first[|first| - 1];
  }

  /** Every content has lines, */
  lemma {:induction false} CutExists(s: string) returns (lines: seq<string>)
    ensures CutOf(s, lines)
    decreases |s|
  {
    if s == [] {
      lines := [];
    } else {
      var n := LineLength(s);
      var rest := CutExists(s[n..]);
      lines := [s[..n]] + rest;
      assert lines[1..] == rest;
      assert s[..n][..n - 1] == s[..n - 1];
      assert rest != [] ==> n < |s|;
    }
  }

  /** and only these. */
  lemma {:induction false} CutUnique(s: string, a: seq<string>, b: seq<string>)
    requires CutOf(s, a) && CutOf(s, b)
    ensures a == b
    decreases |a|
  {
    if a != [] {
      FirstOfCut(s, a);
      FirstOfCut(s, b);
      CutUnique(s[LineLength(s)..], a[1..], b[1..]);
      assert a == [a[0]] + a[1..] && b == [b[0]] + b[1..];
      assert a[0] == s[..LineLength(s)] == b[0];
    }
  }

  lemma {:induction false} LoadsExactly(c: Codec, s: string, lines: seq<string>, db: DB)
    requires CutOf(s, lines)
    ensures LoadInto(c, s, db).Loaded? <==> AllGood(c, lines)
    decreases |lines|
  {
    if lines != [] {
      FirstOfCut(s, lines);
      if GoodLine(c, lines[0]) {
        LoadsExactly(c, s[LineLength(s)..], lines[1..], Put(db, DecodedLine(c, lines[0]).record));
        assert lines == [lines[0]] + lines[1..];
      }
    }
  }

  lemma {:induction false} LoadFailsAtFirst(c: Codec, s: string, lines: seq<string>, db: DB) returns (i: int)
    requires CutOf(s, lines) && LoadInto(c, s, db).LoadFailed?
    ensures FirstBad(c, lines, i)
    ensures NewURLRecordFromBytes(c, lines[i][..|lines[i]| - 1]) == LoadFailed(LoadInto(c, s, db).error)
    decreases |lines|
  {
    FirstOfCut(s, lines);
    i := 0;
    if GoodLine(c, lines[0]) {
      i := LoadFailsAtFirst(c, s[LineLength(s)..], lines[1..], Put(db, DecodedLine(c, lines[0]).record));
      i := i + 1;
    }
  }

  lemma LineForTail(c: Codec, lines: seq<string>, i: int, key: string)
    requires lines != [] && lines[0] != []
    ensures LineFor(c, lines, i, key) <==> (i == 0 && LineFor(c, lines, 0, key)) || LineFor(c, lines[1..], i - 1, key)
  {
  }

  /** A key of the loaded map is a short URL of some line, or was there before. */
  lemma {:induction false} LoadedKeys(c: Codec, s: string, lines: seq<string>, db: DB, key: string)
    requires CutOf(s, lines) && LoadInto(c, s, db).Loaded?
    ensures key in LoadInto(c, s, db).value <==> key in db || exists i :: LineFor(c, lines, i, key)
    ensures (forall i :: !LineFor(c, lines, i, key)) && key in db ==> LoadInto(c, s, db).value[key] == db[key]
    decreases |lines|
  {
    if lines != [] {
      FirstOfCut(s, lines);
      var r := DecodedLine(c, lines[0]).record;
      LoadedKeys(c, s[LineLength(s)..], lines[1..], Put(db, r), key);
      assert r.shortURL == key <==> LineFor(c, lines, 0, key);
      if i :| LineFor(c, lines[1..], i, key) {
        LineForTail(c, lines, i + 1, key);
      }
      if i :| LineFor(c, lines, i, key) {
        LineForTail(c, lines, i, key);
      }
    }
  }

  /** ... and its record is that of the last line with this short URL. */
  lemma {:induction false} LoadedLast(c: Codec, s: string, lines: seq<string>, db: DB, i: int, key: string)
    requires CutOf(s, lines) && LoadInto(c, s, db).Loaded? && LastLineFor(c, lines, i, key)
    ensures key in LoadInto(c, s, db).value
    ensures DecodedLine(c, lines[i]) == Decoded.Decoded(LoadInto(c, s, db).value[key])
    decreases |lines|
  {
    FirstOfCut(s, lines);
    var r := DecodedLine(c, lines[0]).record;
    LineForTail(c, lines, i, key);
    forall j | i - 1 < j ensures !LineFor(c, lines[1..], j, key) {
      LineForTail(c, lines, j + 1, key);
    }
    if i == 0 {
      LoadedKeys(c, s[LineLength(s)..], lines[1..], Put(db, r), key);
    } else {
      LoadedLast(c, s[LineLength(s)..], lines[1..], Put(db, r), i - 1, key);
    }
  }

  /** For a file of any content, well written or not: reading it comes to the outcome of its lines. */
  lemma LoadOutcome(c: Codec, s: string, lines: seq<string>)
    requires CutOf(s, lines)
    ensures Outcome(c, lines, Load(c, s))
  {
    LoadsExactly(c, s, lines, map[]);
    if Load(c, s).Loaded? {
      forall key ensures key in Load(c, s).value <==> exists i :: LineFor(c, lines, i, key) {
        LoadedKeys(c, s, lines, map[], key);
      }
      forall i, key | LastLineFor(c, lines, i, key)
        ensures key in Load(c, s).value && DecodedLine(c, lines[i]) == Decoded.Decoded(Load(c, s).value[key])
      {
        LoadedLast(c, s, lines, map[], i, key);
      }
    } else {
      var i := LoadFailsAtFirst(c, s, lines, map[]);
    }
  }

  method ReadURLsFromFile(c: Codec, content: string) returns (r: Loading<DB>)
    ensures r == Load(c, content)
    ensures exists lines :: CutOf(content, lines) && Outcome(c, lines, r)
    ensures r.Loaded? ==> Keyed(r.value)
  {
    ghost var lines := CutExists(content);
    LoadOutcome(c, content, lines);
    var urlDB: DB := map[];
    var rest := content;
    while rest != []
      invariant LoadInto(c, rest, urlDB) == Load(c, content)
      invariant Keyed(urlDB)
      decreases |rest|
    {
      var n := LineLength(rest);
      var record := NewURLRecordFromBytes(c, rest[..n - 1]);
      if record.LoadFailed? {
        return LoadFailed(record.error);
      }
      urlDB := urlDB[record.value.shortURL := record.value];
      rest := rest[n..];
    }
    return Loaded(urlDB);
  }

  // ---------------------------------------------------------------- round trip

  lemma FirstLine(c: Codec, r: Record, rest: string)
    requires c.Faithful(r)
    ensures var s := c.marshal(r) + ['\n'] + rest;
      LineLength(s) == |c.marshal(r)| + 1 && s[..|c.marshal(r)|] == c.marshal(r) && s[|c.marshal(r)| + 1..] == rest
  {
    var line := c.marshal(r);
    var s := line + ['\n'] + rest;
    var n := LineLength(s);
    assert s[|line|] == '\n';
    assert forall i :: 0 <= i < |line| ==> s[i] == line[i] && line[i] in line;
    assert forall i :: 0 <= i < n - 1 ==> s[i] == s[..n - 1][i] && s[i] in s[..n - 1];
  }

  /** Reading printed lines back files every record under its own short URL, in order, or
      fails, when some record is not valid. */
  lemma {:induction false} LoadLines(c: Codec, records: seq<Record>, db: DB)
    requires forall r :: r in records ==> c.Faithful(r)
    ensures if forall r :: r in records ==> c.Valid(r)
            then LoadInto(c, Lines(c, records), db) == Loaded(PutAll(db, records))
            else LoadInto(c, Lines(c, records), db).LoadFailed?
    decreases |records|
  {
    if records != [] {
      var rest := Lines(c, records[1..]);
      assert records == [records[0]] + records[1..];
      FirstLine(c, records[0], rest);
      if c.Valid(records[0]) {
        LoadLines(c, records[1..], Put(db, records[0]));
        assert (forall r :: r in records ==> c.Valid(r)) <==> forall r :: r in records[1..] ==> c.Valid(r);
      }
    }
  }

  lemma {:induction false} PutAllDomain(db: DB, records: seq<Record>, k: string)
    ensures k in PutAll(db, records) <==> k in db || exists i :: 0 <= i < |records| && records[i].shortURL == k
    decreases |records|
  {
    if records != [] {
      PutAllDomain(Put(db, records[0]), records[1..], k);
      if exists i :: 0 <= i < |records| && records[i].shortURL == k {
        var i :| 0 <= i < |records| && records[i].shortURL == k;
        assert i > 0 ==> records[1..][i - 1] == records[i];
      }
    }
  }

  lemma PutAllRebuilds(db: DB, keys: seq<string>)
    requires Enumerates(db, keys) && Keyed(db)
    ensures PutAll(map[], RecordsAt(db, keys)) == db
  {
    var records := RecordsAt(db, keys);
    var built := PutAll(map[], records);
    forall i | 0 <= i < |keys| ensures keys[i] in built && built[keys[i]] == db[keys[i]] {
      assert keys[i] in keys;
      forall j | i < j < |records| ensures records[j].shortURL != records[i].shortURL {
        assert keys[j] in keys;
      }
      PutAllLast(map[], records, i);
    }
    forall k ensures k in built <==> k in db {
      PutAllDomain(map[], records, k);
      if k in db {
        var i :| 0 <= i < |keys| && keys[i] == k;
      }
    }
    forall k | k in db ensures built[k] == db[k] {
      var i :| 0 <= i < |keys| && keys[i] == k;
    }
  }

  /** For any order of the map's loop and records that the codec keeps: loading the dumped
      file gives the database back if and only if every record is filed under its own short
      URL and passes the checks of NewURLRecordFromBytes. */
  lemma RoundTripExactly(c: Codec, db: DB, keys: seq<string>)
    requires Enumerates(db, keys)
    requires forall k :: k in db ==> c.Faithful(db[k])
    ensures Load(c, Lines(c, RecordsAt(db, keys))) == Loaded(db)
      <==> Keyed(db) && forall k :: k in db ==> c.Valid(db[k])
    ensures Load(c, Lines(c, RecordsAt(db, keys))).Loaded? <==> forall k :: k in db ==> c.Valid(db[k])
  {
    var records := RecordsAt(db, keys);
    forall r | r in records ensures c.Faithful(r) {
      var i :| 0 <= i < |records| && records[i] == r;
    }
    LoadLines(c, records, map[]);
    if forall k :: k in db ==> c.Valid(db[k]) {
      forall r | r in records ensures c.Valid(r) {
        var i :| 0 <= i < |records| && records[i] == r;
      }
      PutAllKeyed(map[], records);
      if Keyed(db) {
        PutAllRebuilds(db, keys);
      }
    } else {
      var k :| k in db && !c.Valid(db[k]);
      var i :| 0 <= i < |keys| && keys[i] == k;
      assert records[i] in records;
    }
  }
}
