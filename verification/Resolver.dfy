/** Generated keys and the lookup that accepts them.  Go strings are byte strings; a char
    stands for a byte. */
module Resolver {
  import opened MemoryDb
  import MemoryStore

  const ALPHABET := "0123456789" + "abcdefghijklmnopqrstuvwxyz" + "ABCDEFGHIJKLMNOPQRSTUVWXYZ"

  /** The 62 characters by number: digits, small letters, capital letters. */
  function CharOf(i: nat): char
    requires i < 62
  {
    if i < 10 then '0' + i as char
    else if i < 36 then 'a' + (i - 10) as char
    else 'A' + (i - 36) as char
  }

  /** The alphabet is these 62 characters in order. */
  lemma AlphabetExactly()
    ensures |ALPHABET| == 62
    ensures forall i :: 0 <= i < 62 ==> ALPHABET[i] == CharOf(i)
  {
    var digits, small, capital := "0123456789", "abcdefghijklmnopqrstuvwxyz", "ABCDEFGHIJKLMNOPQRSTUVWXYZ";
    assert forall i :: 0 <= i < 10 ==> digits[i] == CharOf(i);
    assert forall i :: 0 <= i < 26 ==> small[i] == CharOf(i + 10);
    assert forall i :: 0 <= i < 26 ==> capital[i] == CharOf(i + 36);
  }

  /** The key that a sequence of random draws spells; Intn keeps each draw within the alphabet. */
  function Key(length: nat, draw: nat -> nat): string {
    seq(length, i requires 0 <= i < length => ALPHABET[draw(i) % |ALPHABET|])
  }

  lemma CharsDiffer(i: nat, j: nat)
    requires i < 62 && j < 62 && CharOf(i) == CharOf(j)
    ensures i == j
  {
    assert CharOf(i) as int == CharOf(j) as int;
  }

  lemma KeyChars(length: nat, draw: nat -> nat)
    ensures |Key(length, draw)| == length
    ensures forall i :: 0 <= i < length ==> Key(length, draw)[i] in ALPHABET
    ensures forall i :: 0 <= i < length ==> Key(length, draw)[i] == CharOf(draw(i) % 62)
  {
    AlphabetExactly();
  }

  /** Two sequences of draws spell the same key exactly when they agree modulo 62. */
  lemma SameKeyExactly(length: nat, d: nat -> nat, e: nat -> nat)
    ensures Key(length, d) == Key(length, e) <==> forall i :: 0 <= i < length ==> d(i) % 62 == e(i) % 62
  {
    AlphabetExactly();
    KeyChars(length, d);
    KeyChars(length, e);
    if Key(length, d) == Key(length, e) {
      forall i | 0 <= i < length ensures d(i) % 62 == e(i) % 62 {
        assert Key(length, d)[i] == Key(length, e)[i];
        CharsDiffer(d(i) % 62, e(i) % 62);
      }
    }
  }

  method RandString(length: nat, draw: nat -> nat) returns (s: string)
    ensures s == Key(length, draw)
    ensures |s| == length && forall i :: 0 <= i < |s| ==> s[i] in ALPHABET
    ensures forall i :: 0 <= i < |s| ==> s[i] == CharOf(draw(i) % 62)
  {
    var b := new char[length](_ => '0');
    for i := 0 to length
      invariant forall j :: 0 <= j < i ==> b[j] == ALPHABET[draw(j) % |ALPHABET|]
    {
      b[i] := ALPHABET[draw(i) % |ALPHABET|];
    }
    s := b[..];
    KeyChars(length, draw);
    assert s == Key(length, draw);
  }

  /** unicode.IsLetter on a rune made from one byte: ASCII and Latin-1 letters. */
  predicate IsLetter(c: char) {
    'a' <= c <= 'z' || 'A' <= c <= 'Z' ||
    c as int in {0xAA, 0xB5, 0xBA} ||
    0xC0 <= c as int <= 0xD6 || 0xD8 <= c as int <= 0xF6 || 0xF8 <= c as int <= 0xFF
  }

  /** unicode.IsDigit on a rune made from one byte. */
  predicate IsDigit(c: char) { '0' <= c <= '9' }

  /** Of the ASCII bytes exactly those of the alphabet are letters or digits. */
  lemma AsciiExactly(c: char)
    requires c as int < 128
    ensures IsLetter(c) || IsDigit(c) <==> exists i :: 0 <= i < 62 && CharOf(i) == c
  {
    if '0' <= c <= '9' {
      assert CharOf((c - '0') as int) == c;
    } else if 'a' <= c <= 'z' {
      assert CharOf((c - 'a') as int + 10) == c;
    } else if 'A' <= c <= 'Z' {
      assert CharOf((c - 'A') as int + 36) == c;
    }
  }

  predicate Acceptable(s: string) {
    forall i :: 0 <= i < |s| ==> IsLetter(s[i]) || IsDigit(s[i])
  }

  /** IndexPanic is the run-time panic on the empty path. */
  datatype PathCheck = PathOk | NoSlash | BadByte(c: char) | IndexPanic

  /** The loop stops at the first byte that is neither a letter nor a digit. */
  method ValidatePath(path: string) returns (r: PathCheck)
    ensures r == PathOk <==> path != [] && path[0] == '/' && Acceptable(path[1..])
    ensures r == IndexPanic <==> path == []
    ensures r == NoSlash <==> path != [] && path[0] != '/'
    ensures r.BadByte? ==>
      exists i :: 1 <= i < |path| && path[i] == r.c && !IsLetter(r.c) && !IsDigit(r.c) && Acceptable(path[1..i])
  {
    if path == [] {
      return IndexPanic;
    }
    if path[0] != '/' {
      return NoSlash;
    }
    for i := 1 to |path|
      invariant Acceptable(path[1..i])
    {
      if !IsLetter(path[i]) && !IsDigit(path[i]) {
        assert !Acceptable(path[1..]) by {
          assert path[1..][i - 1] == path[i];
        }
        return BadByte(path[i]);
      }
      assert path[1..i + 1] == path[1..i] + [path[i]];
    }
    assert path[1..|path|] == path[1..];
    return PathOk;
  }

  datatype Resolution = Resolved(url: string) | InvalidPath | StorageError(error: StoreError) | Panic

  function ResolveIn(db: DB, path: string): Resolution {
    if path == [] then Panic
    else if path[0] != '/' || !Acceptable(path[1..]) then InvalidPath
    else
      match Get(db, path[1..])
      case Err(e) => StorageError(e)
      case Ok(url) => Resolved(url)
  }

  /** Some byte of the path after the first is neither a letter nor a digit. */
  ghost predicate HasBadByte(path: string) {
    exists i :: 1 <= i < |path| && !IsLetter(path[i]) && !IsDigit(path[i])
  }

  lemma BadByteExactly(path: string)
    requires path != []
    ensures HasBadByte(path) <==> !Acceptable(path[1..])
  {
    if i :| 1 <= i < |path| && !IsLetter(path[i]) && !IsDigit(path[i]) {
      assert path[1..][i - 1] == path[i];
    }
    if i :| 0 <= i < |path[1..]| && !IsLetter(path[1..][i]) && !IsDigit(path[1..][i]) {
      assert path[i + 1] == path[1..][i];
    }
  }

  /** Validation comes first: the store is asked only for a path that is a slash and then letters
      and digits, and its answer is passed on. */
  ghost predicate ResolvedAs(db: DB, path: string, r: Resolution) {
    && (r == Panic <==> path == [])
    && (r == InvalidPath <==> path != [] && (path[0] != '/' || HasBadByte(path)))
    && (path != [] && path[0] == '/' && !HasBadByte(path) ==>
          var key := path[1..];
          && (r == StorageError(NotFound) <==> key !in db)
          && (r == StorageError(MemoryDb.Deleted) <==> key in db && db[key].deleted)
          && (key in db && !db[key].deleted ==> r == Resolved(db[key].originalURL)))
  }

  lemma ResolveExactly(db: DB, path: string)
    ensures ResolvedAs(db, path, ResolveIn(db, path))
  {
    if path != [] {
      BadByteExactly(path);
    }
  }

  method Resolve(store: MemoryStore.Memory, path: string) returns (r: Resolution)
    ensures r == ResolveIn(store.DB, path)
    ensures ResolvedAs(store.DB, path, r)
  {
    ResolveExactly(store.DB, path);
    var check := ValidatePath(path);
    match check
    case IndexPanic => return Panic;
    case NoSlash => return InvalidPath;
    case BadByte(_) => return InvalidPath;
    case PathOk =>
      var got := store.Get(path[1..]);
      match got
      case Err(e) => return StorageError(e);
      case Ok(url) => return Resolved(url);
  }

  lemma AlphabetAccepted(c: char)
    requires c in ALPHABET
    ensures IsLetter(c) || IsDigit(c)
  {
    assert c in "0123456789" ==> IsDigit(c);
    assert c in "abcdefghijklmnopqrstuvwxyz" ==> IsLetter(c);
    assert c in "ABCDEFGHIJKLMNOPQRSTUVWXYZ" ==> IsLetter(c);
  }

  /** Every generated key passes the resolver's validation and finds its own record. */
  lemma GeneratedKeyResolves(db: DB, length: nat, draw: nat -> nat)
    ensures var key := Key(length, draw);
      ResolveIn(db, "/" + key) == match Get(db, key) case Err(e) => StorageError(e) case Ok(url) => Resolved(url)
  {
    var key := Key(length, draw);
    assert ("/" + key)[1..] == key;
    forall i | 0 <= i < |key| ensures IsLetter(key[i]) || IsDigit(key[i]) {
      AlphabetAccepted(key[i]);
    }
  }
}
