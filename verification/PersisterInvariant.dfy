/** The invariants of the file store's protocol, and that every action keeps them. */
module PersisterInvariant {
  import opened Sequences
  import opened MemoryDb
  import opened PersisterProtocol

  ghost predicate MutexOk(s: State) {
    && |s.pcs| == |s.ops|
    && (forall i :: 0 <= i < |s.pcs| ==> (s.pcs[i].Editing? <==> s.mutex == HeldBy(i)))
    && (s.mutex.HeldBy? ==> s.mutex.id < |s.pcs|)
    && (s.run.Copying? <==> s.mutex == HeldByDump)
  }

  function Last(s: State): nat
    requires |s.hist| > 0
  {
    |s.hist| - 1
  }

  /** The versions are the results of whole operations, one on the other; what the map holds
      in between is on its way to the result of the operation that has the mutex. */
  ghost predicate Serial(s: State) {
    && |s.pcs| == |s.ops| && |s.hist| > 0 && |s.makers| == Last(s)
    && (forall u :: 0 <= u < |s.makers| ==>
          s.makers[u] < |s.ops| && TryApply(s.hist[u], s.ops[s.makers[u]]) == Ok(s.hist[u + 1]))
    && (match s.mutex
        case HeldBy(i) =>
          i < |s.pcs| && s.pcs[i].Editing? &&
          TryApply(s.hist[Last(s)], s.ops[i]) == Ok(DoEdits(s.db, s.pcs[i].todo))
        case _ => s.db == s.hist[Last(s)])
  }

  /** A version belongs to the call that says it made it, and the other way round. */
  ghost predicate MakersOk(s: State) {
    && |s.hist| > 0 && |s.makers| == Last(s)
    && (forall u :: 0 <= u < |s.makers| ==>
          s.makers[u] < |s.pcs| && s.pcs[s.makers[u]] in {Mutated(u + 1), Succeeded(u + 1)})
    && (forall i :: 0 <= i < |s.pcs| && (s.pcs[i].Mutated? || s.pcs[i].Succeeded?) ==>
          1 <= s.pcs[i].version < |s.hist| && s.makers[s.pcs[i].version - 1] == i)
  }

  ghost predicate CopyOk(s: State) {
    s.run.Copying? ==>
      && s.run.todo !! s.run.copy.Keys && s.run.todo + s.run.copy.Keys == s.db.Keys
      && forall k :: k in s.run.copy ==> k in s.db && s.run.copy[k] == s.db[k]
  }

  /** What is being written, and what the file holds, is one version of the database. */
  ghost predicate SnapshotOk(s: State) {
    && |s.hist| > 0
    && (s.run.Writing? ==> s.run.at < |s.hist| && s.run.dump == s.hist[s.run.at])
    && (s.file.Holds? ==> s.file.at < |s.hist| && s.file.db == s.hist[s.file.at])
    && (s.run.Clearing? ==> s.file.Holds? && s.file.at == s.run.at)
  }

  /** The versions that reached the file never go back. */
  ghost predicate DumpsOk(s: State) {
    && |s.hist| > 0
    && (forall i, j :: 0 <= i < j < |s.dumps| ==> s.dumps[i] <= s.dumps[j])
    && (forall i :: 0 <= i < |s.dumps| ==> s.dumps[i] < |s.hist| && (s.run.Writing? ==> s.dumps[i] <= s.run.at))
  }

  /** From the test of `changed` to its clearing it is set, and a torn file leaves it set; the
      file is torn from its truncation to the end of the write. */
  ghost predicate ChangedOk(s: State) {
    && (s.run.Opening? || s.run.Locking? || s.run.Copying? || s.run.Writing? || s.run.Clearing? ==> s.changed)
    && (s.run.Clearing? || !s.changed ==> s.file.Holds?)
    && (s.run.Locking? || s.run.Copying? || s.run.Writing? ==> s.file.Torn?)
  }

  ghost predicate StopOk(s: State) {
    (s.closer == Returned ==> s.run == Finished) &&
    match s.run
    case Waiting => !s.shutdown
    case Stopping => !s.shutdown
    case Testing(f) => s.shutdown == f
    case Opening(f) => s.shutdown == f
    case Locking(f) => s.shutdown == f
    case Copying(f, _, _) => s.shutdown == f
    case Writing(f, _, _) => s.shutdown == f
    case Clearing(f, _) => s.shutdown == f
    case _ => s.shutdown
  }

  ghost predicate Inv(s: State) {
    MutexOk(s) && Serial(s) && MakersOk(s) && CopyOk(s) && SnapshotOk(s) && DumpsOk(s) && ChangedOk(s) && StopOk(s)
  }

  /** What a step of one mutating call leaves alone. */
  lemma MutFrame(s: State, i: nat)
    requires |s.pcs| == |s.ops| && |s.hist| > 0 && Enabled(s, MutStep(i))
    ensures var t := Do(s, MutStep(i));
      && |t.pcs| == |s.pcs| && t.ops == s.ops && t.run == s.run && t.file == s.file && t.dumps == s.dumps
      && t.shutdown == s.shutdown && t.closer == s.closer
      && (forall j :: 0 <= j < |s.pcs| && j != i ==> t.pcs[j] == s.pcs[j])
      && t.changed == (s.changed || s.pcs[i].Mutated?)
  {
    match s.pcs[i]
    case Called =>
    case Checked => if Edits(s.db, s.ops[i]).Ok? {} else {}
    case Editing(todo) => if todo == [] {} else {}
    case Mutated(_) =>
  }

  /** What it does to the mutex and to the versions. */
  lemma MutLock(s: State, i: nat)
    requires MutexOk(s) && |s.hist| > 0 && Enabled(s, MutStep(i))
    ensures s.pcs[i].Editing? ==> s.mutex == HeldBy(i)
    ensures var t := Do(s, MutStep(i));
      && (t.pcs[i].Editing? <==> t.mutex == HeldBy(i))
      && (t.mutex == s.mutex || t.mutex == HeldBy(i) || (t.mutex == Free && s.mutex == HeldBy(i)))
      && (t.mutex == HeldBy(i) && s.mutex != t.mutex ==> s.mutex == Free)
      && (!s.pcs[i].Editing? ==> t.db == s.db)
      && (!s.pcs[i].Editing? && !s.pcs[i].Checked? ==> t.mutex == s.mutex)
      && (if s.pcs[i] == Editing([]) then t.hist == s.hist + [s.db] && t.makers == s.makers + [i]
          else t.hist == s.hist && t.makers == s.makers)
  {
  }

  /** What the persistence loop leaves alone. */
  lemma StepFrame(s: State)
    requires MutexOk(s) && |s.hist| > 0 && Enabled(s, Step)
    ensures var t := Do(s, Step);
      && t.pcs == s.pcs && t.ops == s.ops && t.db == s.db && t.hist == s.hist && t.makers == s.makers
      && (t.mutex == s.mutex || (!t.mutex.HeldBy? && !s.mutex.HeldBy?))
      && (t.run.Copying? <==> t.mutex == HeldByDump)
      && t.closer == s.closer
  {
    match s.run
    case Locking(_) =>
    case Copying(_, _, _) =>
    case _ =>
  }

  /** ... and the environment with it. */
  lemma OtherFrame(s: State, a: Action)
    requires MutexOk(s) && |s.hist| > 0 && Enabled(s, a) && !a.MutStep? && !a.Call?
    ensures var t := Do(s, a);
      && t.pcs == s.pcs && t.ops == s.ops && t.db == s.db && t.hist == s.hist && t.makers == s.makers
      && (t.mutex == s.mutex || (!t.mutex.HeldBy? && !s.mutex.HeldBy?))
      && (t.run.Copying? <==> t.mutex == HeldByDump)
  {
    match a
    case Step => StepFrame(s);
    case Cancel =>
    case CloseCall =>
    case CloseReturn =>
    case Select(_) =>
    case Copy(_) =>
    case IoFails =>
  }

  lemma MutexStep(s: State, a: Action)
    requires MutexOk(s) && |s.hist| > 0 && Enabled(s, a)
    ensures MutexOk(Do(s, a))
  {
    if a.MutStep? {
      MutFrame(s, a.id);
      MutLock(s, a.id);
      var t := Do(s, a);
      forall j | 0 <= j < |t.pcs| ensures t.pcs[j].Editing? <==> t.mutex == HeldBy(j) {
        if j != a.id {
          assert t.pcs[j] == s.pcs[j];
        }
      }
    } else if !a.Call? {
      OtherFrame(s, a);
    }
  }

  lemma SerialMutStep(s: State, i: nat)
    requires MutexOk(s) && Serial(s) && Enabled(s, MutStep(i))
    ensures Serial(Do(s, MutStep(i)))
  {
    MutFrame(s, i);
    MutLock(s, i);
    var t := Do(s, MutStep(i));
    match s.pcs[i]
    case Checked => EditsAreOp(s.db, s.ops[i]);
    case Editing(todo) =>
      if todo == [] {
        assert t.hist[Last(s)] == s.hist[Last(s)] && t.hist[Last(t)] == s.db;
      }
    case _ =>
      if s.mutex.HeldBy? {
        assert t.pcs[s.mutex.id] == s.pcs[s.mutex.id];
      }
  }

  lemma SerialStep(s: State, a: Action)
    requires MutexOk(s) && Serial(s) && Enabled(s, a)
    ensures Serial(Do(s, a))
  {
    match a
    case MutStep(i) => SerialMutStep(s, i);
    case Call(op) =>
    case _ => OtherFrame(s, a);
  }

  lemma MutPcMoves(s: State, i: nat)
    requires |s.pcs| == |s.ops| && |s.hist| > 0 && Enabled(s, MutStep(i))
    ensures var t := Do(s, MutStep(i));
      && !s.pcs[i].Succeeded?
      && (s.pcs[i] == Editing([]) ==> t.pcs[i] == Mutated(|s.hist|))
      && (s.pcs[i].Mutated? ==> t.pcs[i] == Succeeded(s.pcs[i].version))
      && (s.pcs[i] != Editing([]) && !s.pcs[i].Mutated? ==> !t.pcs[i].Mutated? && !t.pcs[i].Succeeded?)
      && (t.pcs[i].Admitted() <==> s.pcs[i].Admitted() || (s.pcs[i] == Called && !s.shutdown))
  {
  }

  lemma MakersPoint(s: State, t: State, i: nat)
    requires MakersOk(s) && i < |s.pcs| == |t.pcs| && |t.hist| > 0
    requires forall j :: 0 <= j < |s.pcs| && j != i ==> t.pcs[j] == s.pcs[j]
    requires if s.pcs[i] == Editing([])
             then t.hist == s.hist + [s.db] && t.makers == s.makers + [i] && t.pcs[i] == Mutated(|s.hist|)
             else t.hist == s.hist && t.makers == s.makers
    requires s.pcs[i].Mutated? ==> t.pcs[i] == Succeeded(s.pcs[i].version)
    requires !s.pcs[i].Succeeded?
    requires s.pcs[i] != Editing([]) && !s.pcs[i].Mutated? ==> !t.pcs[i].Mutated? && !t.pcs[i].Succeeded?
    ensures MakersOk(t)
  {
    forall u | 0 <= u < |t.makers|
      ensures t.makers[u] < |t.pcs| && t.pcs[t.makers[u]] in {Mutated(u + 1), Succeeded(u + 1)}
    {
      if u < |s.makers| {
        assert t.makers[u] == s.makers[u];
        assert s.pcs[s.makers[u]] in {Mutated(u + 1), Succeeded(u + 1)};
      }
    }
  }

  lemma MakersMutStep(s: State, i: nat)
    requires MutexOk(s) && MakersOk(s) && Enabled(s, MutStep(i))
    ensures MakersOk(Do(s, MutStep(i)))
  {
    MutFrame(s, i);
    MutLock(s, i);
    MutPcMoves(s, i);
    MakersPoint(s, Do(s, MutStep(i)), i);
  }

  lemma MakersStep(s: State, a: Action)
    requires MutexOk(s) && MakersOk(s) && Enabled(s, a)
    ensures MakersOk(Do(s, a))
  {
    match a
    case MutStep(i) => MakersMutStep(s, i);
    case Call(op) =>
    case _ => OtherFrame(s, a);
  }

  /** While the map is being copied no call holds the mutex, so none changes it. */
  lemma CopyMutStep(s: State, i: nat)
    requires MutexOk(s) && CopyOk(s) && |s.hist| > 0 && Enabled(s, MutStep(i))
    ensures CopyOk(Do(s, MutStep(i)))
  {
    MutFrame(s, i);
    MutLock(s, i);
  }

  lemma CopyOneKey(s: State, k: string)
    requires MutexOk(s) && CopyOk(s) && |s.hist| > 0 && Enabled(s, Copy(k))
    ensures CopyOk(Do(s, Copy(k)))
  {
    var t := Do(s, Copy(k));
    assert t.run.copy.Keys == s.run.copy.Keys + {k};
  }

  lemma CopyStep(s: State, a: Action)
    requires MutexOk(s) && CopyOk(s) && |s.hist| > 0 && Enabled(s, a)
    ensures CopyOk(Do(s, a))
  {
    match a
    case MutStep(i) => CopyMutStep(s, i);
    case Step => StepFrame(s);
    case Copy(k) => CopyOneKey(s, k);
    case Call(_) =>
    case Cancel =>
    case CloseCall =>
    case CloseReturn =>
    case Select(_) =>
    case IoFails =>
  }

  /** The dump loop ends with an exact copy of the version that held the mutex still. */
  lemma CopyComplete(s: State)
    requires MutexOk(s) && Serial(s) && CopyOk(s) && s.run.Copying? && s.run.todo == {}
    ensures s.run.copy == s.hist[Last(s)]
  {
    assert s.run.copy.Keys == s.db.Keys;
  }

  lemma SnapshotRunStep(s: State)
    requires MutexOk(s) && Serial(s) && CopyOk(s) && SnapshotOk(s) && Enabled(s, Step)
    ensures SnapshotOk(Do(s, Step))
  {
    OtherFrame(s, Step);
    if s.run.Copying? {
      CopyComplete(s);
    }
  }

  lemma DumpsRunStep(s: State)
    requires MutexOk(s) && SnapshotOk(s) && DumpsOk(s) && Enabled(s, Step)
    ensures DumpsOk(Do(s, Step))
  {
    OtherFrame(s, Step);
    if s.run.Writing? {
      assert Do(s, Step).dumps == s.dumps + [s.run.at];
    } else {
      assert Do(s, Step).dumps == s.dumps;
    }
  }

  lemma SnapshotMutStep(s: State, i: nat)
    requires MutexOk(s) && SnapshotOk(s) && DumpsOk(s) && Enabled(s, MutStep(i))
    ensures SnapshotOk(Do(s, MutStep(i))) && DumpsOk(Do(s, MutStep(i)))
  {
    MutFrame(s, i);
    MutLock(s, i);
  }

  lemma SnapshotStep(s: State, a: Action)
    requires MutexOk(s) && Serial(s) && CopyOk(s) && SnapshotOk(s) && DumpsOk(s) && Enabled(s, a)
    ensures SnapshotOk(Do(s, a)) && DumpsOk(Do(s, a))
  {
    match a
    case MutStep(i) => SnapshotMutStep(s, i);
    case Step =>
      SnapshotRunStep(s);
      DumpsRunStep(s);
    case Call(_) =>
    case Cancel =>
    case CloseCall =>
    case CloseReturn =>
    case Select(_) =>
    case Copy(_) =>
    case IoFails =>
  }

  lemma FlagsRunStep(s: State)
    requires MutexOk(s) && |s.hist| > 0 && ChangedOk(s) && StopOk(s) && Enabled(s, Step)
    ensures ChangedOk(Do(s, Step)) && StopOk(Do(s, Step))
  {
    StepFrame(s);
    match s.run
    case Clearing(_, _) =>
    case _ =>
  }

  lemma FlagsStep(s: State, a: Action)
    requires MutexOk(s) && |s.hist| > 0 && ChangedOk(s) && StopOk(s) && Enabled(s, a)
    ensures ChangedOk(Do(s, a)) && StopOk(Do(s, a))
  {
    match a
    case MutStep(i) => MutFrame(s, i);
    case Step => FlagsRunStep(s);
    case Call(_) =>
    case Cancel =>
    case CloseCall =>
    case CloseReturn =>
    case Select(_) =>
    case Copy(_) =>
    case IoFails =>
  }

  lemma InvStep(s: State, a: Action)
    requires Inv(s) && Enabled(s, a)
    ensures Inv(Do(s, a))
  {
    MutexStep(s, a);
    SerialStep(s, a);
    MakersStep(s, a);
    CopyStep(s, a);
    SnapshotStep(s, a);
    FlagsStep(s, a);
  }

  lemma FirstVersionStays(s: State, a: Action)
    requires MutexOk(s) && |s.hist| > 0 && Enabled(s, a)
    ensures Do(s, a).hist[0] == s.hist[0]
  {
    if a.MutStep? {
      MutLock(s, a.id);
    } else if !a.Call? {
      OtherFrame(s, a);
    }
  }

  lemma {:induction false} InvExec(s: State, acts: seq<Action>)
    requires Inv(s) && Exec(s, acts).Some?
    ensures Inv(Exec(s, acts).value) && Exec(s, acts).value.hist[0] == s.hist[0]
    decreases |acts|
  {
    if acts != [] {
      InvStep(s, acts[0]);
      FirstVersionStays(s, acts[0]);
      InvExec(Do(s, acts[0]), acts[1..]);
    }
  }

  lemma InvReachable(db: DB, s: State)
    requires Reachable(db, s)
    ensures Inv(s) && s.hist[0] == db
  {
    var acts :| Exec(Init(db), acts) == Some(s);
    assert Inv(Init(db));
    InvExec(Init(db), acts);
  }
}
