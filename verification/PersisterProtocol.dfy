/** The file store of internal/storage/file/file.go as a state machine: any number of
    mutating calls, one persistence loop, one Close.

    A mutating call checks `shutdown`, then edits the map under the mutex one entry at a
    time, then sets `changed`.  The persistence loop tests `changed`, truncates the file,
    copies the map under the mutex one key at a time, writes the copy, and clears
    `changed`. */
module PersisterProtocol {
  import opened Sequences
  import opened MemoryDb

  /** One assignment to the map. */
  datatype Edit = PutRecord(r: Record) | Mark(url: URL)

  function DoEdit(db: DB, e: Edit): DB {
    match e case PutRecord(r) => Put(db, r) case Mark(url) => DeleteOne(db, url)
  }

  function DoEdits(db: DB, es: seq<Edit>): DB
    decreases |es|
  {
    if es == [] then db else DoEdits(DoEdit(db, es[0]), es[1..])
  }

  /** What an operation, once it holds the mutex, will assign, or the error it returns. */
  function Edits(db: DB, op: Op): Result<seq<Edit>> {
    match op
    case OpStore(url, overwrite, id) =>
      (match Store(db, url, overwrite, id)
       case Err(e) => Err(e)
       case Ok(_) => Ok([PutRecord(NewRecord(url, id.value))]))
    case OpBatch(urls, ids) =>
      (match Prepare(db, urls, ids)
       case Err(e) => Err(e)
       case Ok(records) => Ok(seq(|records|, i requires 0 <= i < |records| => PutRecord(records[i]))))
    case OpDelete(urls) => Ok(seq(|urls|, i requires 0 <= i < |urls| => Mark(urls[i])))
  }

  /** A mutating call: before the shutdown check; waiting for the mutex; holding it with
      these edits to do; after the mutex with the version it made; returned. */
  datatype MutPc =
    | Called
    | Checked
    | Editing(todo: seq<Edit>)
    | Mutated(version: nat)
    | Succeeded(version: nat)
    | Failed
    | Refused
  {
    predicate Admitted() { !Called? && !Refused? }
    predicate InFlight() { Checked? || Editing? || Mutated? }
  }

  /** The persistence loop; `final` tells the persist after shutdown from the periodic ones. */
  datatype RunPc =
    | Waiting
    | Stopping
    | Testing(final: bool)
    | Opening(final: bool)
    | Locking(final: bool)
    | Copying(final: bool, todo: set<string>, copy: DB)
    | Writing(final: bool, dump: DB, at: nat)
    | Clearing(final: bool, at: nat)
    | Closing
    | Finished

  datatype Holder = Free | HeldBy(id: nat) | HeldByDump
  datatype Closer = NotCalled | Blocked | Returned
  datatype File = Holds(db: DB, at: nat) | Torn

  /** `hist` lists the versions of the database, `makers[u]` the call that made version
      u + 1, `dumps` the versions that reached the file, oldest first. */
  datatype State = State(
    db: DB, mutex: Holder, pcs: seq<MutPc>, ops: seq<Op>,
    run: RunPc, changed: bool, shutdown: bool, cancelled: bool, closer: Closer, done: bool,
    file: File, hist: seq<DB>, makers: seq<nat>, dumps: seq<nat>)

  datatype Wake = Tick | Done | Ctx

  datatype Action =
    | Call(op: Op)
    | Cancel
    | CloseCall
    | CloseReturn
    | MutStep(id: nat)
    | Select(wake: Wake)
    | Step              // the next statement of the persistence loop
    | Copy(key: string) // one iteration of the copying loop, in any order
    | IoFails           // opening, marshalling or writing returns an error

  /** The store as New leaves it: the file holds what was loaded from it. */
  function Init(db: DB): State {
    State(db, Free, [], [], Waiting, false, false, false, NotCalled, false, Holds(db, 0), [db], [], [])
  }

  predicate Enabled(s: State, a: Action) {
    match a
    case Call(_) => true
    case Cancel => true
    case CloseCall => s.closer == NotCalled
    case CloseReturn => s.closer == Blocked && s.run == Finished
    case MutStep(i) =>
      i < |s.pcs| &&
      (match s.pcs[i]
       case Called => true
       case Checked => s.mutex == Free
       case Editing(_) => true
       case Mutated(_) => true
       case _ => false)
    case Select(w) => s.run == Waiting && (w == Done ==> s.done) && (w == Ctx ==> s.cancelled)
    case Step =>
      (match s.run
       case Waiting => false
       case Locking(_) => s.mutex == Free
       case Copying(_, todo, _) => todo == {}
       case Finished => false
       case _ => true)
    case Copy(k) => s.run.Copying? && k in s.run.todo && k in s.db
    case IoFails => s.run.Opening? || s.run.Writing?
  }

  function DoMut(s: State, i: nat): (t: State)
    requires i < |s.pcs| && i < |s.ops|
    ensures |t.pcs| == |s.pcs| && t.ops == s.ops && |t.hist| >= |s.hist|
  {
    match s.pcs[i]
    case Called => s.(pcs := s.pcs[i := if s.shutdown then Refused else Checked])
    case Checked =>
      (match Edits(s.db, s.ops[i])
       case Err(_) => s.(pcs := s.pcs[i := Failed])
       case Ok(es) => s.(mutex := HeldBy(i), pcs := s.pcs[i := Editing(es)]))
    case Editing(todo) =>
      if todo != [] then
        s.(db := DoEdit(s.db, todo[0]), pcs := s.pcs[i := Editing(todo[1..])])
      else
        s.(mutex := Free, hist := s.hist + [s.db], makers := s.makers + [i], pcs := s.pcs[i := Mutated(|s.hist|)])
    case Mutated(v) => s.(changed := true, pcs := s.pcs[i := Succeeded(v)])
    case _ => s
  }

  function Leave(final: bool): RunPc { if final then Closing else Waiting }

  function DoRun(s: State): (t: State)
    requires |s.hist| > 0
    ensures t.pcs == s.pcs && t.ops == s.ops && t.hist == s.hist
  {
    match s.run
    case Stopping => s.(shutdown := true, run := Testing(true))
    case Testing(f) => s.(run := if s.changed then Opening(f) else Leave(f))
    case Opening(f) => s.(file := Torn, run := Locking(f))
    case Locking(f) => s.(mutex := HeldByDump, run := Copying(f, s.db.Keys, map[]))
    case Copying(f, _, copy) => s.(mutex := Free, run := Writing(f, copy, |s.hist| - 1))
    case Writing(f, dump, at) => s.(file := Holds(dump, at), dumps := s.dumps + [at], run := Clearing(f, at))
    case Clearing(f, _) => s.(changed := false, run := Leave(f))
    case Closing => s.(run := Finished)
    case _ => s
  }

  function Do(s: State, a: Action): (t: State)
    requires Enabled(s, a) && |s.pcs| == |s.ops| && |s.hist| > 0
    ensures |t.pcs| == |t.ops| && |t.hist| >= |s.hist|
  {
    match a
    case Call(op) => s.(pcs := s.pcs + [Called], ops := s.ops + [op])
    case Cancel => s.(cancelled := true)
    case CloseCall => s.(closer := Blocked, done := true)
    case CloseReturn => s.(closer := Returned)
    case MutStep(i) => DoMut(s, i)
    case Select(Tick) => s.(run := Testing(false))
    case Select(Done) => s.(done := false, run := Stopping)
    case Select(Ctx) => s.(run := Stopping)
    case Step => DoRun(s)
    case Copy(k) =>
      s.(run := Copying(s.run.final, s.run.todo - {k}, s.run.copy[k := s.db[k]]))
    case IoFails => s.(run := Leave(s.run.final))
  }

  function Exec(s: State, acts: seq<Action>): Option<State>
    requires |s.pcs| == |s.ops| && |s.hist| > 0
    decreases |acts|
  {
    if acts == [] then Some(s)
    else if Enabled(s, acts[0]) then Exec(Do(s, acts[0]), acts[1..])
    else None
  }

  ghost predicate Reachable(db: DB, s: State) {
    exists acts :: Exec(Init(db), acts) == Some(s)
  }

  lemma ExecOne(s: State, a: Action)
    requires |s.pcs| == |s.ops| && |s.hist| > 0 && Enabled(s, a)
    ensures Exec(s, [a]) == Some(Do(s, a))
  {
    assert [a][1..] == [];
  }

  lemma {:induction false} ExecConcat(s: State, a: seq<Action>, b: seq<Action>)
    requires |s.pcs| == |s.ops| && |s.hist| > 0 && Exec(s, a).Some?
    ensures var t := Exec(s, a).value;
      |t.pcs| == |t.ops| && |t.hist| > 0 && Exec(s, a + b) == Exec(t, b)
    decreases |a|
  {
    if a == [] {
      assert a + b == b;
    } else {
      assert (a + b)[1..] == a[1..] + b && (a + b)[0] == a[0];
      ExecConcat(Do(s, a[0]), a[1..], b);
    }
  }

  // ---------------------------------------------------------------- edits and operations

  lemma {:induction false} PutEdits(db: DB, records: seq<Record>, es: seq<Edit>)
    requires |es| == |records| && forall i :: 0 <= i < |es| ==> es[i] == PutRecord(records[i])
    ensures DoEdits(db, es) == PutAll(db, records)
    decreases |es|
  {
    if es != [] {
      PutEdits(Put(db, records[0]), records[1..], es[1..]);
    }
  }

  lemma {:induction false} MarkEdits(db: DB, urls: seq<URL>, es: seq<Edit>)
    requires |es| == |urls| && forall i :: 0 <= i < |es| ==> es[i] == Mark(urls[i])
    ensures DoEdits(db, es) == DeleteAll(db, urls)
    decreases |es|
  {
    if es != [] {
      MarkEdits(DeleteOne(db, urls[0]), urls[1..], es[1..]);
    }
  }

  /** The edits of an operation, done one by one, are the operation. */
  lemma EditsAreOp(db: DB, op: Op)
    ensures Edits(db, op).Ok? <==> TryApply(db, op).Ok?
    ensures Edits(db, op).Ok? ==> TryApply(db, op) == Ok(DoEdits(db, Edits(db, op).value))
  {
    match op
    case OpStore(url, overwrite, id) =>
      if Edits(db, op).Ok? {
        var es := Edits(db, op).value;
        assert DoEdits(db, es) == DoEdits(DoEdit(db, es[0]), []);
      }
    case OpBatch(urls, ids) =>
      if Prepare(db, urls, ids).Ok? {
        PutEdits(db, Prepare(db, urls, ids).value, Edits(db, op).value);
      }
    case OpDelete(urls) => MarkEdits(db, urls, Edits(db, op).value);
  }
}
