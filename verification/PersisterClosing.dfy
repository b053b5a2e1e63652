/** What the file holds when the persistence loop has ended, after the context was cancelled
    or Close was called. */
module PersisterClosing {
  import opened Sequences
  import opened MemoryDb
  import opened PersisterProtocol
  import opened PersisterInvariant
  import opened PersisterTheorems
  import opened RecordFile

  /** Close returns only after the loop has ended. */
  lemma CloseWaits(db: DB, s: State)
    requires Reachable(db, s) && s.closer == Returned
    ensures s.run == Finished && s.shutdown
  {
    InvReachable(db, s);
  }

  /** In s the loop is about to store `shutdown`; from the store on acts is a run to the end
      of the loop in which no I/O fails. */
  ghost predicate CloseRun(db: DB, s: State, acts: seq<Action>) {
    && Reachable(db, s) && |s.pcs| == |s.ops| && |s.hist| > 0 && s.run == Stopping && IoFails !in acts
    && Exec(Do(s, Step), acts).Some? && Exec(Do(s, Step), acts).value.run == Finished
  }

  function Final(s: State, acts: seq<Action>): State
    requires |s.pcs| == |s.ops| && |s.hist| > 0 && s.run == Stopping && Exec(Do(s, Step), acts).Some?
  {
    Exec(Do(s, Step), acts).value
  }

  lemma CloseRunOf(db: DB, s: State, t: State) returns (acts: seq<Action>)
    requires Reachable(db, s) && |s.pcs| == |s.ops| && |s.hist| > 0 && s.run == Stopping
    requires Leads(Do(s, Step), t) && t.run == Finished
    ensures CloseRun(db, s, acts) && Final(s, acts) == t
  {
    acts :| IoFails !in acts && Exec(Do(s, Step), acts) == Some(t);
  }

  /** Version u + 1 is later than the one in the file. */
  ghost predicate NotInFile(t: State, u: int) {
    t.file.Holds? && t.file.at <= u < |t.makers|
  }

  // ---------------------------------------------------------------- who can be missing

  /** What holds of every state t that follows the store of `shutdown` in state s, as long
      as no I/O fails. */
  ghost predicate SinceStop(s: State, t: State) {
    && t.shutdown && s.makers <= t.makers && s.hist <= t.hist && |s.pcs| <= |t.pcs|
    && (forall i :: 0 <= i < |t.pcs| && t.pcs[i].Admitted() ==> i < |s.pcs| && s.pcs[i].Admitted())
    && (forall i :: 0 <= i < |s.pcs| && (s.pcs[i].Failed? || s.pcs[i].Succeeded?) ==> t.pcs[i] == s.pcs[i])
    && (t.run.Testing? && !t.changed ==> t.file.Holds? && AllPending(t, t.file.at))
    && (t.run.Writing? || t.run.Clearing? ==> |s.makers| <= t.run.at)
    && (t.run.Closing? || t.run.Finished? ==> t.file.Holds? && AllPending(s, t.file.at))
  }

  lemma PendingWas(s: State, t: State, at: nat)
    requires MakersOk(s) && MakersOk(t) && SinceStop(s, t) && AllPending(t, at)
    ensures AllPending(s, at)
  {
    forall u | at <= u < |s.makers| ensures s.makers[u] < |s.pcs| && s.pcs[s.makers[u]] == Mutated(u + 1) {
      assert t.makers[u] == s.makers[u];
      assert t.pcs[t.makers[u]] == Mutated(u + 1);
    }
  }

  lemma SinceStopMutStep(s: State, t: State, i: nat)
    requires MakersOk(s) && Inv(t) && SinceStop(s, t) && Enabled(t, MutStep(i))
    ensures SinceStop(s, Do(t, MutStep(i)))
  {
    MutFrame(t, i);
    MutLock(t, i);
    MutPcMoves(t, i);
    if t.run.Testing? && !t.changed && !t.pcs[i].Mutated? {
      PendingMutStep(t, i, t.file.at);
    }
  }

  lemma SinceStopRunStep(s: State, t: State)
    requires MakersOk(s) && Inv(t) && SinceStop(s, t) && Enabled(t, Step)
    ensures SinceStop(s, Do(t, Step))
  {
    StepFrame(t);
    match t.run
    case Testing(_) =>
      if !t.changed {
        PendingWas(s, t, t.file.at);
      }
    case Copying(_, _, _) =>
    case Writing(_, _, _) =>
    case Clearing(_, _) =>
    case _ =>
  }

  lemma SinceStopStep(s: State, t: State, a: Action)
    requires MakersOk(s) && Inv(t) && SinceStop(s, t) && Enabled(t, a) && a != IoFails
    ensures SinceStop(s, Do(t, a))
  {
    match a
    case MutStep(i) => SinceStopMutStep(s, t, i);
    case Step => SinceStopRunStep(s, t);
    case Call(op) =>
    case Cancel =>
    case CloseCall =>
    case CloseReturn =>
    case Select(_) =>
    case Copy(_) =>
  }

  lemma {:induction false} SinceStopExec(s: State, t: State, acts: seq<Action>)
    requires MakersOk(s) && Inv(t) && SinceStop(s, t) && Exec(t, acts).Some?
    requires IoFails !in acts
    ensures Inv(Exec(t, acts).value) && SinceStop(s, Exec(t, acts).value)
    decreases |acts|
  {
    if acts != [] {
      InvStep(t, acts[0]);
      SinceStopStep(s, t, acts[0]);
      SinceStopExec(s, Do(t, acts[0]), acts[1..]);
    }
  }

  /** A call with work to report in t was in flight in s. */
  lemma LateWasInFlight(s: State, t: State, i: nat)
    requires MakersOk(s) && MakersOk(t) && SinceStop(s, t)
    requires i < |t.pcs| &&
      (t.pcs[i].Editing? || ((t.pcs[i].Mutated? || t.pcs[i].Succeeded?) && t.pcs[i].version > |s.makers|))
    ensures i < |s.pcs| && s.pcs[i].InFlight()
  {
    if s.pcs[i].Mutated? {
      assert t.makers[s.pcs[i].version - 1] == i;
    }
  }

  ghost predicate OnlyInFlightMissing(s: State, t: State) {
    t.file.Holds? &&
    forall u :: NotInFile(t, u) ==> t.makers[u] < |s.pcs| && s.pcs[t.makers[u]].InFlight()
  }

  lemma MissingWasInFlight(s: State, t: State)
    requires MakersOk(s) && MakersOk(t) && SinceStop(s, t) && t.run == Finished
    ensures OnlyInFlightMissing(s, t)
  {
    forall u | NotInFile(t, u) ensures t.makers[u] < |s.pcs| && s.pcs[t.makers[u]].InFlight() {
      if u < |s.makers| {
        assert t.makers[u] == s.makers[u];
      } else {
        LateWasInFlight(s, t, t.makers[u]);
      }
    }
  }

  lemma FinalFile(db: DB, s: State, acts: seq<Action>)
    requires CloseRun(db, s, acts) && !Lost(s)
    ensures OnlyInFlightMissing(s, Final(s, acts))
  {
    InvReachable(db, s);
    SafeExactly(s);
    InvStep(s, Step);
    assert SinceStop(s, Do(s, Step));
    SinceStopExec(s, Do(s, Step), acts);
    MissingWasInFlight(s, Final(s, acts));
  }

  /** The loop's way out when it finds `changed` down. */
  lemma QuietStop(s: State) returns (t: State)
    requires |s.pcs| == |s.ops| && |s.hist| > 0 && s.run == Testing(true) && !s.changed
    ensures Leads(s, t) && t == s.(run := Finished)
  {
    LeadsSelf(s);
    t := LeadsOn(s, s, Step);
    t := LeadsOn(s, t, Step);
  }

  lemma LostStaysLost(db: DB, s: State) returns (acts: seq<Action>)
    requires Reachable(db, s) && |s.pcs| == |s.ops| && |s.hist| > 0 && s.run == Stopping && Lost(s)
    ensures CloseRun(db, s, acts) && !OnlyInFlightMissing(s, Final(s, acts))
  {
    var t := QuietStop(Do(s, Step));
    acts := CloseRunOf(db, s, t);
    var u :| s.file.at <= u < |s.makers| && s.makers[u] < |s.pcs| && s.pcs[s.makers[u]] == Succeeded(u + 1);
    assert NotInFile(t, u);
  }

  /** An orderly shutdown keeps its promise exactly when no update was lost before it: on
      every way to the end of the loop, the versions that the file then lacks were made by
      calls in flight when `shutdown` was stored. */
  lemma FinalFileExactly(db: DB, s: State)
    requires Reachable(db, s) && |s.pcs| == |s.ops| && |s.hist| > 0 && s.run == Stopping
    ensures (forall acts :: CloseRun(db, s, acts) ==> OnlyInFlightMissing(s, Final(s, acts))) <==> !Lost(s)
  {
    if Lost(s) {
      var acts := LostStaysLost(db, s);
    } else {
      forall acts | CloseRun(db, s, acts) ensures OnlyInFlightMissing(s, Final(s, acts)) {
        FinalFile(db, s, acts);
      }
    }
  }

  // ---------------------------------------------------------------- no call in flight

  ghost predicate SameAsMap(s: State) {
    s.file.Holds? && s.file.db == s.db
  }

  ghost predicate NoneInFlight(s: State) {
    forall i :: 0 <= i < |s.pcs| ==> !s.pcs[i].InFlight()
  }

  /** What follows the store of `shutdown` in s when no call was in flight. */
  ghost predicate Settled(s: State, t: State) {
    && t.shutdown && t.db == s.db && t.hist == s.hist && t.makers == s.makers && NoneInFlight(t)
    && match t.run
       case Testing(f) => f && t.changed == s.changed && t.file == s.file
       case Opening(f) => f && s.changed
       case Locking(f) => f && s.changed
       case Copying(f, _, _) => f && s.changed
       case Writing(f, dump, _) => f && s.changed && dump == s.db
       case Clearing(f, _) => f && s.changed && SameAsMap(t)
       case Closing => if s.changed then SameAsMap(t) else t.file == s.file
       case Finished => if s.changed then SameAsMap(t) else t.file == s.file
       case _ => false
  }

  lemma SettledMutStep(s: State, t: State, i: nat)
    requires Inv(t) && Settled(s, t) && Enabled(t, MutStep(i))
    ensures Settled(s, Do(t, MutStep(i)))
  {
    assert t.pcs[i] == Called;
    MutFrame(t, i);
    MutLock(t, i);
    assert Do(t, MutStep(i)).pcs == t.pcs[i := Refused];
  }

  lemma SettledRunStep(s: State, t: State)
    requires Inv(t) && Settled(s, t) && Enabled(t, Step)
    ensures Settled(s, Do(t, Step))
  {
    StepFrame(t);
    assert !t.mutex.HeldBy?;
    match t.run
    case Copying(_, _, _) => CopyComplete(t);
    case _ =>
  }

  lemma SettledStep(s: State, t: State, a: Action)
    requires Inv(t) && Settled(s, t) && Enabled(t, a) && a != IoFails
    ensures Settled(s, Do(t, a))
  {
    match a
    case MutStep(i) => SettledMutStep(s, t, i);
    case Step => SettledRunStep(s, t);
    case Call(op) =>
    case Cancel =>
    case CloseCall =>
    case CloseReturn =>
    case Select(_) =>
    case Copy(_) =>
  }

  lemma {:induction false} SettledExec(s: State, t: State, acts: seq<Action>)
    requires Inv(t) && Settled(s, t) && Exec(t, acts).Some? && IoFails !in acts
    ensures Settled(s, Exec(t, acts).value)
    decreases |acts|
  {
    if acts != [] {
      InvStep(t, acts[0]);
      SettledStep(s, t, acts[0]);
      SettledExec(s, Do(t, acts[0]), acts[1..]);
    }
  }

  lemma PendingInFlight(s: State, at: nat)
    requires MakersOk(s) && AllPending(s, at)
    ensures NoneInFlight(s) ==> |s.makers| <= at
  {
    if at < |s.makers| {
      assert s.pcs[s.makers[at]] == Mutated(at + 1);
    }
  }

  /** Without a lost update and without a call in flight, the file lacks nothing unannounced. */
  lemma QuietIsSame(s: State)
    requires Inv(s) && NoneInFlight(s) && !Lost(s)
    ensures s.changed || SameAsMap(s)
  {
    SafeExactly(s);
    assert !s.mutex.HeldBy?;
    if !s.changed {
      PendingInFlight(s, s.file.at);
    }
  }

  /** With no call in flight when `shutdown` is stored, the file ends up equal to the map
      exactly when `changed` was up or the file was equal to it already; and it was one of
      the two unless an update had been lost. */
  lemma CleanCloseExactly(db: DB, s: State, acts: seq<Action>)
    requires CloseRun(db, s, acts) && NoneInFlight(s)
    ensures Final(s, acts).db == s.db
    ensures SameAsMap(Final(s, acts)) <==> s.changed || SameAsMap(s)
    ensures !Lost(s) ==> s.changed || SameAsMap(s)
  {
    InvReachable(db, s);
    InvStep(s, Step);
    SettledExec(s, Do(s, Step), acts);
    if !Lost(s) {
      QuietIsSame(s);
    }
  }

  lemma {:induction false} VersionsKeyed(s: State, v: nat)
    requires Serial(s) && Keyed(s.hist[0]) && v < |s.hist|
    ensures Keyed(s.hist[v])
  {
    if v > 0 {
      VersionsKeyed(s, v - 1);
      KeyedStep(s.hist[v - 1], s.ops[s.makers[v - 1]]);
    }
  }

  /** ... and opening the file again then gives that map back exactly when every record of
      it passes the loader's checks, for records that the codec keeps. */
  lemma CloseThenOpen(db: DB, s: State, acts: seq<Action>, c: Codec, keys: seq<string>)
    requires CloseRun(db, s, acts) && NoneInFlight(s) && Keyed(db)
    requires s.changed || SameAsMap(s)
    requires Enumerates(s.db, keys) && forall k :: k in s.db ==> c.Faithful(s.db[k])
    ensures var t := Final(s, acts);
      && t.file.Holds? && Enumerates(t.file.db, keys)
      && (Load(c, Lines(c, RecordsAt(t.file.db, keys))) == Loaded(t.db) <==>
            forall k :: k in s.db ==> c.Valid(s.db[k]))
  {
    InvReachable(db, s);
    CleanCloseExactly(db, s, acts);
    assert !s.mutex.HeldBy?;
    VersionsKeyed(s, Last(s));
    RoundTripExactly(c, s.db, keys);
  }

  // ---------------------------------------------------------------- late updates

  /** The map once the call that has the mutex, if any, is through. */
  ghost function Drained(s: State): DB
    requires MutexOk(s)
  {
    if s.mutex.HeldBy? then
      assert s.pcs[s.mutex.id].Editing?;
      DoEdits(s.db, s.pcs[s.mutex.id].todo)
    else s.db
  }

  /** A call has reported a version that the file does not have. */
  ghost predicate Late(t: State) {
    exists u :: NotInFile(t, u) && t.makers[u] < |t.pcs| && t.pcs[t.makers[u]] == Succeeded(u + 1)
  }

  /** A call waiting for the mutex will succeed on what it finds there. */
  ghost predicate WaitsToMutate(s: State, i: int)
    requires MutexOk(s)
  {
    0 <= i < |s.pcs| && s.pcs[i] == Checked && TryApply(Drained(s), s.ops[i]).Ok?
  }

  /** The map is ahead of the file, or about to be, and `changed` does not say so yet. */
  ghost predicate Unannounced(s: State)
    requires |s.hist| > 0
  {
    !s.changed && (s.mutex.HeldBy? || (s.file.Holds? && s.file.at < Last(s)))
  }

  /** What holds of every state t after the store of `shutdown` in s if neither is the case. */
  ghost predicate InTime(s: State, t: State)
    requires MutexOk(s) && MutexOk(t) && |t.hist| > 0
  {
    && t.shutdown && s.ops <= t.ops && |s.pcs| == |s.ops| <= |t.pcs| && Drained(t) == Drained(s)
    && (forall i :: 0 <= i < |t.pcs| && t.pcs[i] == Checked ==> i < |s.pcs| && s.pcs[i] == Checked)
    && (t.run.Testing? && !t.changed ==> t.file.Holds? && t.file.at == Last(t) && !t.mutex.HeldBy?)
    && (t.run.Writing? || t.run.Clearing? ==> t.run.at == Last(t) && !t.mutex.HeldBy?)
    && (t.run.Closing? || t.run.Finished? ==> t.file.Holds? && t.file.at == Last(t) && !t.mutex.HeldBy?)
  }

  /** A step of a call keeps the map that the holder is to end with, unless a waiting call
      begins an operation that changes it. */
  lemma DrainedStays(t: State, i: nat)
    requires Inv(t) && Enabled(t, MutStep(i)) && t.shutdown
    requires t.pcs[i] == Checked ==> Apply(Drained(t), t.ops[i]) == Drained(t)
    ensures MutexOk(Do(t, MutStep(i))) && Drained(Do(t, MutStep(i))) == Drained(t)
    ensures Do(t, MutStep(i)).pcs[i] != Checked
  {
    MutexStep(t, MutStep(i));
    MutFrame(t, i);
    MutLock(t, i);
    if t.pcs[i] == Checked {
      EditsAreOp(t.db, t.ops[i]);
    } else if t.mutex.HeldBy? && t.mutex.id != i {
      assert Do(t, MutStep(i)).pcs[t.mutex.id] == t.pcs[t.mutex.id];
    }
  }

  /** ... and a call whose operation fails does not get the mutex. */
  lemma DrainedMutStep(t: State, i: nat)
    requires Inv(t) && Enabled(t, MutStep(i)) && t.shutdown
    requires t.pcs[i] == Checked ==> TryApply(Drained(t), t.ops[i]).Err?
    ensures var u := Do(t, MutStep(i));
      && MutexOk(u) && Drained(u) == Drained(t) && u.pcs[i] != Checked
      && (u.mutex == t.mutex || u.mutex == Free)
      && (t.pcs[i].Editing? || u.hist == t.hist)
  {
    DrainedStays(t, i);
    MutLock(t, i);
    if t.pcs[i] == Checked {
      EditsAreOp(t.db, t.ops[i]);
    }
  }

  lemma InTimeMutStep(s: State, t: State, i: nat)
    requires MutexOk(s) && (forall j :: !WaitsToMutate(s, j))
    requires Inv(t) && InTime(s, t) && Enabled(t, MutStep(i))
    ensures MutexOk(Do(t, MutStep(i))) && InTime(s, Do(t, MutStep(i)))
  {
    if t.pcs[i] == Checked {
      assert !WaitsToMutate(s, i);
    }
    DrainedMutStep(t, i);
    MutFrame(t, i);
    MutLock(t, i);
  }

  lemma InTimeRunStep(s: State, t: State)
    requires MutexOk(s) && Inv(t) && InTime(s, t) && Enabled(t, Step)
    ensures MutexOk(Do(t, Step)) && InTime(s, Do(t, Step))
  {
    MutexStep(t, Step);
    StepFrame(t);
    match t.run
    case Copying(_, _, _) =>
    case Clearing(_, _) =>
    case _ =>
  }

  lemma InTimeStep(s: State, t: State, a: Action)
    requires MutexOk(s) && (forall j :: !WaitsToMutate(s, j))
    requires Inv(t) && InTime(s, t) && Enabled(t, a) && a != IoFails
    ensures MutexOk(Do(t, a)) && InTime(s, Do(t, a))
  {
    MutexStep(t, a);
    match a
    case MutStep(i) => InTimeMutStep(s, t, i);
    case Step => InTimeRunStep(s, t);
    case Call(op) =>
      if t.mutex.HeldBy? {
        assert Do(t, a).pcs[t.mutex.id] == t.pcs[t.mutex.id];
      }
    case Cancel =>
    case CloseCall =>
    case CloseReturn =>
    case Select(_) =>
    case Copy(_) =>
  }

  lemma {:induction false} InTimeExec(s: State, t: State, acts: seq<Action>)
    requires MutexOk(s) && (forall j :: !WaitsToMutate(s, j))
    requires Inv(t) && InTime(s, t) && Exec(t, acts).Some? && IoFails !in acts
    ensures Inv(Exec(t, acts).value) && InTime(s, Exec(t, acts).value)
    decreases |acts|
  {
    if acts != [] {
      InvStep(t, acts[0]);
      InTimeStep(s, t, acts[0]);
      InTimeExec(s, Do(t, acts[0]), acts[1..]);
    }
  }

  /** The call that has the mutex, run alone until it has unlocked. */
  lemma {:induction false} DrainHolder(s: State) returns (t: State)
    requires Inv(s) && s.mutex.HeldBy?
    ensures Leads(s, t)
    ensures t == s.(db := Drained(s), mutex := Free, hist := s.hist + [Drained(s)],
                    makers := s.makers + [s.mutex.id], pcs := s.pcs[s.mutex.id := Mutated(|s.hist|)])
    decreases |s.pcs[s.mutex.id].todo|
  {
    var i := s.mutex.id;
    var u := Do(s, MutStep(i));
    LeadsSelf(s);
    u := LeadsOn(s, s, MutStep(i));
    if s.pcs[i].todo == [] {
      t := u;
    } else {
      InvStep(s, MutStep(i));
      t := DrainHolder(u);
      assert u.pcs[i := Mutated(|s.hist|)] == s.pcs[i := Mutated(|s.hist|)];
      LeadsThrough(s, u, t);
    }
  }

  /** ... and until it has returned. */
  lemma HolderAlone(s: State) returns (t: State)
    requires Inv(s) && s.mutex.HeldBy?
    ensures Leads(s, t)
    ensures t == s.(db := Drained(s), mutex := Free, hist := s.hist + [Drained(s)],
                    makers := s.makers + [s.mutex.id], pcs := s.pcs[s.mutex.id := Succeeded(|s.hist|)],
                    changed := true)
  {
    var u := DrainHolder(s);
    t := LeadsOn(s, u, MutStep(s.mutex.id));
    assert u.pcs[s.mutex.id := Succeeded(|s.hist|)] == s.pcs[s.mutex.id := Succeeded(|s.hist|)];
  }

  /** The last persist, run alone. */
  lemma StopAlone(s: State) returns (t: State)
    requires Inv(s) && s.mutex == Free && s.run == Testing(true)
    ensures Leads(s, t) && t.run == Finished && t.mutex == Free && t.file.Holds?
    ensures t.db == s.db && t.pcs == s.pcs && t.ops == s.ops && t.hist == s.hist && t.makers == s.makers
    ensures if s.changed then SameAsMap(t) else t.file == s.file
  {
    if s.changed {
      t := DumpAlone(s);
      t := LeadsOn(s, t, Step);
      t := LeadsOn(s, t, Step);
      t := LeadsOn(s, t, Step);
    } else {
      t := QuietStop(s);
    }
  }

  /** The loop is at its last test; whoever has the mutex goes first, then the last persist. */
  lemma DrainThenStop(s: State) returns (t: State)
    requires Inv(s) && s.run == Testing(true)
    ensures Leads(s, t) && Inv(t) && t.run == Finished && t.mutex == Free && t.file.Holds?
    ensures t.db == Drained(s) && t.ops == s.ops && if s.changed then SameAsMap(t) else t.file == s.file
    ensures |t.pcs| == |s.pcs| && forall i :: 0 <= i < |s.pcs| && s.mutex != HeldBy(i) ==> t.pcs[i] == s.pcs[i]
  {
    LeadsSelf(s);
    var u := s;
    if s.mutex.HeldBy? {
      u := DrainHolder(s);
    }
    LeadsKeepsInv(s, u);
    t := StopAlone(u);
    LeadsThrough(s, u, t);
    LeadsKeepsInv(s, t);
  }

  /** A call that waits for the mutex, run alone to its end. */
  lemma CallAlone(s: State, i: nat) returns (t: State)
    requires Inv(s) && s.mutex == Free && WaitsToMutate(s, i)
    ensures Leads(s, t) && t.run == s.run && t.file == s.file
    ensures t.makers == s.makers + [i] && |t.pcs| == |s.pcs| && t.pcs[i] == Succeeded(|s.hist|)
    ensures TryApply(s.db, s.ops[i]) == Ok(t.db) && t.mutex == Free
  {
    EditsAreOp(s.db, s.ops[i]);
    LeadsSelf(s);
    var u := LeadsOn(s, s, MutStep(i));
    LeadsKeepsInv(s, u);
    t := HolderAlone(u);
    LeadsThrough(s, u, t);
  }

  /** The last persist, after whoever has the mutex, and then a waiting call. */
  lemma StopThenCall(s: State, i: nat) returns (t: State)
    requires Inv(s) && s.run == Testing(true) && WaitsToMutate(s, i)
    ensures Leads(s, t) && t.run == Finished && t.mutex == Free && t.file.Holds?
    ensures |t.pcs| == |s.pcs| && t.pcs[i].Succeeded? && t.file.at < t.pcs[i].version && Late(t)
    ensures TryApply(Drained(s), s.ops[i]) == Ok(t.db)
    ensures if s.changed then t.file.db == Drained(s) else t.file == s.file
  {
    var u := DrainThenStop(s);
    t := CallAlone(u, i);
    LeadsThrough(s, u, t);
    assert NotInFile(t, |u.makers|);
  }

  /** A waiting call whose operation will succeed can do so after the loop has ended: its
      update is reported and applied to the map, and the file holds the map without it. */
  lemma LateCall(db: DB, s: State, i: nat) returns (acts: seq<Action>)
    requires Reachable(db, s) && s.run == Stopping && MutexOk(s) && |s.hist| > 0
    requires WaitsToMutate(s, i)
    ensures CloseRun(db, s, acts) && Late(Final(s, acts))
    ensures var t := Final(s, acts);
      && |t.pcs| == |s.pcs| && t.pcs[i].Succeeded? && t.file.Holds? && t.file.at < t.pcs[i].version
      && TryApply(Drained(s), s.ops[i]) == Ok(t.db)
      && (s.changed ==> t.file.db == Drained(s))
  {
    InvReachable(db, s);
    InvStep(s, Step);
    var t := StopThenCall(Do(s, Step), i);
    acts := CloseRunOf(db, s, t);
  }

  /** So can the call that has the mutex, if the loop finds `changed` down. */
  lemma LateHolder(db: DB, s: State) returns (acts: seq<Action>)
    requires Reachable(db, s) && s.run == Stopping && |s.pcs| == |s.ops| && |s.hist| > 0
    requires !s.changed && s.mutex.HeldBy?
    ensures CloseRun(db, s, acts) && Late(Final(s, acts))
  {
    InvReachable(db, s);
    InvStep(s, Step);
    var u := Do(s, Step);
    var v := QuietStop(u);
    LeadsKeepsInv(u, v);
    var t := HolderAlone(v);
    LeadsThrough(u, v, t);
    acts := CloseRunOf(db, s, t);
    assert NotInFile(t, |s.makers|);
  }

  /** The maker of a version sets `changed`, unless it has done so. */
  lemma Report(s: State, v: nat) returns (t: State)
    requires |s.pcs| == |s.ops| && MakersOk(s) && v < |s.makers|
    ensures Leads(s, t) && t.run == s.run && t.file == s.file && t.makers == s.makers
    ensures s.makers[v] < |t.pcs| && t.pcs[s.makers[v]] == Succeeded(v + 1)
  {
    MakerAt(s, v);
    LeadsSelf(s);
    t := s;
    if s.pcs[s.makers[v]].Mutated? {
      t := LeadsOn(s, s, MutStep(s.makers[v]));
    }
  }

  lemma QuietThenReport(s: State) returns (t: State)
    requires |s.pcs| == |s.ops| && MakersOk(s) && s.run == Testing(true) && !s.changed
    requires s.file.Holds? && s.file.at < |s.makers|
    ensures Leads(s, t) && t.run == Finished && Late(t)
  {
    var u := QuietStop(s);
    t := Report(u, s.file.at);
    LeadsThrough(s, u, t);
    assert NotInFile(t, s.file.at);
  }

  /** And so can a call that has unlocked and not set `changed` yet. */
  lemma LateMutated(db: DB, s: State) returns (acts: seq<Action>)
    requires Reachable(db, s) && s.run == Stopping && |s.pcs| == |s.ops| && |s.hist| > 0
    requires !s.changed && s.file.Holds? && s.file.at < Last(s)
    ensures CloseRun(db, s, acts) && Late(Final(s, acts))
  {
    InvReachable(db, s);
    var t := QuietThenReport(Do(s, Step));
    acts := CloseRunOf(db, s, t);
  }

  ghost predicate EndsLate(db: DB, s: State, acts: seq<Action>) {
    CloseRun(db, s, acts) && Late(Final(s, acts))
  }

  /** An orderly shutdown can end with a reported update missing from the file exactly when,
      at the store of `shutdown`, some call waiting for the mutex will succeed on what it
      finds there, or the map is ahead of the file, or about to be, with `changed` down. */
  lemma LateExactly(db: DB, s: State)
    requires Reachable(db, s) && s.run == Stopping
    ensures MutexOk(s) && |s.hist| > 0
    ensures (exists acts :: EndsLate(db, s, acts)) <==> (exists i :: WaitsToMutate(s, i)) || Unannounced(s)
  {
    InvReachable(db, s);
    if i :| WaitsToMutate(s, i) {
      var acts := LateCall(db, s, i);
      assert EndsLate(db, s, acts);
    } else if Unannounced(s) {
      var acts;
      if s.mutex.HeldBy? {
        acts := LateHolder(db, s);
      } else {
        acts := LateMutated(db, s);
      }
      assert EndsLate(db, s, acts);
    } else {
      forall acts | CloseRun(db, s, acts) ensures !Late(Final(s, acts)) {
        InvStep(s, Step);
        assert InTime(s, Do(s, Step));
        InTimeExec(s, Do(s, Step), acts);
      }
    }
  }

  // ---------------------------------------------------------------- the file against the map

  /** A call waiting for the mutex will change what it finds there. */
  ghost predicate WillChange(s: State, i: int)
    requires MutexOk(s)
  {
    0 <= i < |s.pcs| && s.pcs[i] == Checked && Apply(Drained(s), s.ops[i]) != Drained(s)
  }

  /** The file has other contents than the map will have, and `changed` does not say so. */
  ghost predicate LagsUnannounced(s: State)
    requires MutexOk(s)
  {
    !s.changed && !(s.file.Holds? && s.file.db == Drained(s))
  }

  /** What holds of every state t after the store of `shutdown` in s if neither is the case. */
  ghost predicate InStep(s: State, t: State)
    requires MutexOk(s) && MutexOk(t)
  {
    && t.shutdown && s.ops <= t.ops && |s.pcs| == |s.ops| <= |t.pcs| && Drained(t) == Drained(s)
    && (forall i :: 0 <= i < |t.pcs| && t.pcs[i] == Checked ==> i < |s.pcs| && s.pcs[i] == Checked)
    && (t.run.Writing? ==> t.run.dump == Drained(s))
    && ((t.run.Testing? && !t.changed) || t.run.Clearing? || t.run.Closing? || t.run.Finished? ==>
          t.file.Holds? && t.file.db == Drained(s))
  }

  lemma InStepMutStep(s: State, t: State, i: nat)
    requires MutexOk(s) && (forall j :: !WillChange(s, j))
    requires Inv(t) && InStep(s, t) && Enabled(t, MutStep(i))
    ensures MutexOk(Do(t, MutStep(i))) && InStep(s, Do(t, MutStep(i)))
  {
    if t.pcs[i] == Checked {
      assert !WillChange(s, i);
    }
    DrainedStays(t, i);
    MutFrame(t, i);
  }

  lemma InStepRunStep(s: State, t: State)
    requires MutexOk(s) && Inv(t) && InStep(s, t) && Enabled(t, Step)
    ensures MutexOk(Do(t, Step)) && InStep(s, Do(t, Step))
  {
    MutexStep(t, Step);
    StepFrame(t);
    match t.run
    case Copying(_, _, _) => CopyComplete(t);
    case _ =>
  }

  lemma InStepStep(s: State, t: State, a: Action)
    requires MutexOk(s) && (forall j :: !WillChange(s, j))
    requires Inv(t) && InStep(s, t) && Enabled(t, a) && a != IoFails
    ensures MutexOk(Do(t, a)) && InStep(s, Do(t, a))
  {
    MutexStep(t, a);
    match a
    case MutStep(i) => InStepMutStep(s, t, i);
    case Step => InStepRunStep(s, t);
    case Call(op) =>
      if t.mutex.HeldBy? {
        assert Do(t, a).pcs[t.mutex.id] == t.pcs[t.mutex.id];
      }
    case Cancel =>
    case CloseCall =>
    case CloseReturn =>
    case Select(_) =>
    case Copy(_) =>
  }

  lemma {:induction false} InStepExec(s: State, t: State, acts: seq<Action>)
    requires MutexOk(s) && (forall j :: !WillChange(s, j))
    requires Inv(t) && InStep(s, t) && Exec(t, acts).Some? && IoFails !in acts
    ensures Inv(Exec(t, acts).value) && InStep(s, Exec(t, acts).value)
    decreases |acts|
  {
    if acts != [] {
      InvStep(t, acts[0]);
      InStepStep(s, t, acts[0]);
      InStepExec(s, Do(t, acts[0]), acts[1..]);
    }
  }

  /** The loop has ended, nobody has the mutex, and the file is not what the map is. */
  ghost predicate EndsApart(db: DB, s: State, acts: seq<Action>) {
    CloseRun(db, s, acts) && !Final(s, acts).mutex.HeldBy? && !SameAsMap(Final(s, acts))
  }

  /** The loop finds `changed` down, and the holder of the mutex goes on after it. */
  lemma LagStays(db: DB, s: State) returns (acts: seq<Action>)
    requires Reachable(db, s) && s.run == Stopping && MutexOk(s) && LagsUnannounced(s)
    ensures EndsApart(db, s, acts)
  {
    InvReachable(db, s);
    var u := Do(s, Step);
    var t := QuietStop(u);
    if s.mutex.HeldBy? {
      InvStep(s, Step);
      LeadsKeepsInv(u, t);
      var v := HolderAlone(t);
      LeadsThrough(u, t, v);
      t := v;
    }
    acts := CloseRunOf(db, s, t);
  }

  /** The waiting call goes last and changes the map behind the file. */
  lemma ChangeAfter(db: DB, s: State, i: nat) returns (acts: seq<Action>)
    requires Reachable(db, s) && s.run == Stopping && MutexOk(s) && WillChange(s, i) && !LagsUnannounced(s)
    ensures EndsApart(db, s, acts)
  {
    InvReachable(db, s);
    InvStep(s, Step);
    var t := StopThenCall(Do(s, Step), i);
    acts := CloseRunOf(db, s, t);
  }

  /** An orderly shutdown can end with a file that differs from the map exactly when, at the
      store of `shutdown`, some call waiting for the mutex will change what it finds there, or
      the file differs from what the map will be with `changed` down. */
  lemma FileApartExactly(db: DB, s: State)
    requires Reachable(db, s) && s.run == Stopping
    ensures MutexOk(s)
    ensures (exists acts :: EndsApart(db, s, acts)) <==> (exists i :: WillChange(s, i)) || LagsUnannounced(s)
  {
    InvReachable(db, s);
    if LagsUnannounced(s) {
      var acts := LagStays(db, s);
    } else if i :| WillChange(s, i) {
      var acts := ChangeAfter(db, s, i);
    } else {
      forall acts | CloseRun(db, s, acts) && !Final(s, acts).mutex.HeldBy? ensures SameAsMap(Final(s, acts)) {
        InvStep(s, Step);
        assert InStep(s, Do(s, Step));
        InStepExec(s, Do(s, Step), acts);
      }
    }
  }
}
