/** What the file store guarantees in every run, and exactly when an update is lost. */
module PersisterTheorems {
  import opened Sequences
  import opened MemoryDb
  import opened PersisterProtocol
  import opened PersisterInvariant

  // ---------------------------------------------------------------- snapshots

  /** Every version of the database is the result of one whole operation on the version
      before, and outside the mutators' critical sections the map is the last version. */
  lemma VersionsAreSerial(db: DB, s: State)
    requires Reachable(db, s)
    ensures |s.hist| == |s.makers| + 1 && s.hist[0] == db
    ensures forall u :: 0 <= u < |s.makers| ==>
      s.makers[u] < |s.ops| && TryApply(s.hist[u], s.ops[s.makers[u]]) == Ok(s.hist[u + 1])
    ensures !s.mutex.HeldBy? ==> s.db == s.hist[|s.makers|]
  {
    InvReachable(db, s);
  }

  /** A completed dump, and so the file, is one version that existed at one instant, though
      the map is copied key by key and edited entry by entry; and what reaches the file
      never goes back in the history. */
  lemma DumpIsSnapshot(db: DB, s: State)
    requires Reachable(db, s)
    ensures s.run.Writing? ==> s.run.at < |s.hist| && s.run.dump == s.hist[s.run.at]
    ensures s.file.Holds? ==> s.file.at < |s.hist| && s.file.db == s.hist[s.file.at]
    ensures forall i, j :: 0 <= i < j < |s.dumps| ==> s.dumps[i] <= s.dumps[j] < |s.hist|
    ensures s.run.Writing? ==> forall i :: 0 <= i < |s.dumps| ==> s.dumps[i] <= s.run.at
  {
    InvReachable(db, s);
  }

  /** An action that a mutating call, the loop or Close takes by itself, I/O succeeding. */
  predicate OfThread(a: Action) {
    a.MutStep? || a.Select? || a.Step? || a.Copy? || a.CloseReturn?
  }

  /** The file store never deadlocks: as long as some call or the loop has not finished, or
      Close has been called and has not returned, one of them can move. */
  lemma NeverStuck(db: DB, s: State)
    requires Reachable(db, s)
    requires s.run != Finished || s.closer == Blocked ||
             exists i :: 0 <= i < |s.pcs| && (s.pcs[i].Called? || s.pcs[i].InFlight())
    ensures exists a :: OfThread(a) && Enabled(s, a)
  {
    InvReachable(db, s);
    if s.mutex.HeldBy? {
      assert OfThread(MutStep(s.mutex.id)) && Enabled(s, MutStep(s.mutex.id));
    } else if s.run.Copying? && s.run.todo != {} {
      var k :| k in s.run.todo;
      assert OfThread(Copy(k)) && Enabled(s, Copy(k));
    } else if s.run == Waiting {
      assert OfThread(Select(Tick)) && Enabled(s, Select(Tick));
    } else if s.run != Finished {
      assert OfThread(Step) && Enabled(s, Step);
    } else if s.closer == Blocked {
      assert OfThread(CloseReturn) && Enabled(s, CloseReturn);
    } else {
      var i :| 0 <= i < |s.pcs| && (s.pcs[i].Called? || s.pcs[i].InFlight());
      assert OfThread(MutStep(i)) && Enabled(s, MutStep(i));
    }
  }

  // ---------------------------------------------------------------- lost updates

  /** A call sets `changed` for a version that the dump being written does not have. */
  predicate Overtakes(s: State, a: Action) {
    a.MutStep? && a.id < |s.pcs| && s.pcs[a.id].Mutated? &&
    (s.run.Writing? || s.run.Clearing?) && s.run.at < s.pcs[a.id].version
  }

  /** Whether a leaves the loop behind: some call has overtaken the dump since its copy was
      complete. */
  predicate Behind(s: State, a: Action, behind: bool) {
    Overtakes(s, a) || (behind && !(a == Step && s.run.Copying?))
  }

  /** Somewhere in acts `changed` is cleared for a dump that a call has overtaken. */
  predicate ClearsBehind(s: State, acts: seq<Action>, behind: bool)
    requires |s.pcs| == |s.ops| && |s.hist| > 0
    decreases |acts|
  {
    acts != [] && Enabled(s, acts[0]) &&
    ((behind && s.run.Clearing? && acts[0] == Step) ||
     ClearsBehind(Do(s, acts[0]), acts[1..], Behind(s, acts[0], behind)))
  }

  /** An update that its call has reported is neither in the file nor announced. */
  ghost predicate Lost(s: State) {
    !s.changed && s.file.Holds? &&
    exists u :: s.file.at <= u < |s.makers| && s.makers[u] < |s.pcs| && s.pcs[s.makers[u]] == Succeeded(u + 1)
  }

  /** The run of acts from s comes through a state in which an update is lost. */
  ghost predicate PassesLost(s: State, acts: seq<Action>)
    requires |s.pcs| == |s.ops| && |s.hist| > 0
    decreases |acts|
  {
    Lost(s) || (acts != [] && Enabled(s, acts[0]) && PassesLost(Do(s, acts[0]), acts[1..]))
  }

  /** Every call that made a version after `at` has still to set `changed`. */
  ghost predicate AllPending(s: State, at: nat) {
    forall u :: at <= u < |s.makers| ==> s.makers[u] < |s.pcs| && s.pcs[s.makers[u]] == Mutated(u + 1)
  }

  lemma MakerAt(s: State, u: nat)
    requires MakersOk(s) && u < |s.makers|
    ensures s.makers[u] < |s.pcs|
    ensures s.pcs[s.makers[u]] == Mutated(u + 1) || s.pcs[s.makers[u]] == Succeeded(u + 1)
  {
    assert s.pcs[s.makers[u]] in {Mutated(u + 1), Succeeded(u + 1)};
  }

  ghost predicate Tracks(s: State, behind: bool) {
    s.run.Writing? || s.run.Clearing? ==> (behind <==> !AllPending(s, s.run.at))
  }

  /** With `changed` down the file lacks no version but those whose calls have yet to set it. */
  ghost predicate Safe(s: State) {
    !s.changed ==> s.file.Holds? && AllPending(s, s.file.at)
  }

  lemma SafeExactly(s: State)
    requires Inv(s)
    ensures Safe(s) <==> !Lost(s)
  {
    if !s.changed && !AllPending(s, s.file.at) {
      var u :| s.file.at <= u < |s.makers| && !(s.makers[u] < |s.pcs| && s.pcs[s.makers[u]] == Mutated(u + 1));
      assert s.pcs[s.makers[u]] == Succeeded(u + 1);
    }
  }

  lemma PendingMutStep(s: State, i: nat, at: nat)
    requires Inv(s) && Enabled(s, MutStep(i)) && AllPending(s, at)
    requires s.pcs[i].Mutated? ==> s.pcs[i].version <= at
    ensures AllPending(Do(s, MutStep(i)), at)
  {
    MutFrame(s, i);
    MutLock(s, i);
    MutPcMoves(s, i);
    var t := Do(s, MutStep(i));
    forall u | at <= u < |t.makers| ensures t.makers[u] < |t.pcs| && t.pcs[t.makers[u]] == Mutated(u + 1) {
      if u < |s.makers| {
        assert t.makers[u] == s.makers[u];
        assert s.pcs[s.makers[u]] == Mutated(u + 1);
      }
    }
  }

  /** A call that has set `changed` for its version stays that way. */
  lemma ReportedMutStep(s: State, i: nat, at: nat)
    requires Inv(s) && Enabled(s, MutStep(i))
    requires !AllPending(s, at) || (s.pcs[i].Mutated? && at < s.pcs[i].version)
    ensures !AllPending(Do(s, MutStep(i)), at)
  {
    MutFrame(s, i);
    MutLock(s, i);
    MutPcMoves(s, i);
    var t := Do(s, MutStep(i));
    if !AllPending(s, at) {
      var u :| at <= u < |s.makers| && !(s.makers[u] < |s.pcs| && s.pcs[s.makers[u]] == Mutated(u + 1));
      assert t.makers[u] == s.makers[u] != i;
    } else {
      var u := s.pcs[i].version - 1;
      assert t.makers[u] == i;
    }
  }

  lemma TracksMutStep(s: State, i: nat, behind: bool)
    requires Inv(s) && Tracks(s, behind) && Enabled(s, MutStep(i))
    ensures Tracks(Do(s, MutStep(i)), Behind(s, MutStep(i), behind))
  {
    MutFrame(s, i);
    if s.run.Writing? || s.run.Clearing? {
      if Overtakes(s, MutStep(i)) || !AllPending(s, s.run.at) {
        ReportedMutStep(s, i, s.run.at);
      } else {
        PendingMutStep(s, i, s.run.at);
      }
    }
  }

  lemma TracksRunStep(s: State, behind: bool)
    requires Inv(s) && Tracks(s, behind) && Enabled(s, Step)
    ensures Tracks(Do(s, Step), Behind(s, Step, behind))
  {
    StepFrame(s);
    match s.run
    case Copying(_, _, _) => assert AllPending(Do(s, Step), Last(s));
    case Writing(_, _, at) => assert AllPending(Do(s, Step), at) <==> AllPending(s, at);
    case _ =>
  }

  lemma TracksStep(s: State, a: Action, behind: bool)
    requires Inv(s) && Tracks(s, behind) && Enabled(s, a)
    ensures Tracks(Do(s, a), Behind(s, a, behind))
  {
    match a
    case MutStep(i) => TracksMutStep(s, i, behind);
    case Step => TracksRunStep(s, behind);
    case Call(op) =>
    case Cancel =>
    case CloseCall =>
    case CloseReturn =>
    case Select(_) =>
    case Copy(_) =>
    case IoFails =>
  }

  lemma SafeRunStep(s: State)
    requires Inv(s) && Safe(s) && Enabled(s, Step) && (s.run.Clearing? ==> AllPending(s, s.run.at))
    ensures Safe(Do(s, Step))
  {
    StepFrame(s);
    match s.run
    case Clearing(_, _) =>
    case _ =>
  }

  lemma SafeStep(s: State, a: Action)
    requires Inv(s) && Safe(s) && Enabled(s, a)
    requires a == Step && s.run.Clearing? ==> AllPending(s, s.run.at)
    ensures Safe(Do(s, a))
  {
    match a
    case MutStep(i) =>
      MutFrame(s, i);
      if !s.changed && !s.pcs[i].Mutated? {
        PendingMutStep(s, i, s.file.at);
      }
    case Step => SafeRunStep(s);
    case Call(op) =>
    case Cancel =>
    case CloseCall =>
    case CloseReturn =>
    case Select(_) =>
    case Copy(_) =>
    case IoFails =>
  }

  lemma ClearingLoses(s: State)
    requires Inv(s) && s.run.Clearing? && !AllPending(s, s.run.at)
    ensures Lost(Do(s, Step))
  {
    var t := Do(s, Step);
    var u :| s.run.at <= u < |s.makers| && !(s.makers[u] < |s.pcs| && s.pcs[s.makers[u]] == Mutated(u + 1));
    assert t.pcs[t.makers[u]] == Succeeded(u + 1);
  }

  lemma {:induction false} TracksExec(s: State, acts: seq<Action>, behind: bool)
    requires Inv(s) && Safe(s) && Tracks(s, behind) && Exec(s, acts).Some?
    ensures PassesLost(s, acts) <==> ClearsBehind(s, acts, behind)
    ensures Inv(Exec(s, acts).value)
    ensures !ClearsBehind(s, acts, behind) ==> Safe(Exec(s, acts).value)
    decreases |acts|
  {
    SafeExactly(s);
    if acts != [] {
      var t := Do(s, acts[0]);
      InvStep(s, acts[0]);
      TracksStep(s, acts[0], behind);
      if acts[0] == Step && s.run.Clearing? && behind {
        ClearingLoses(s);
        InvExec(t, acts[1..]);
      } else {
        SafeStep(s, acts[0]);
        TracksExec(t, acts[1..], Behind(s, acts[0], behind));
      }
    }
  }

  /** A run loses an update, that is, comes through a state in which a call has reported a
      version that the file lacks while `changed` is down, exactly when somewhere in it the
      loop clears `changed` after a call has overtaken the dump: has set `changed` for a
      later version between the completion of that dump's copy and the clearing. */
  lemma UpdatesLostExactly(db: DB, acts: seq<Action>)
    requires Exec(Init(db), acts).Some?
    ensures PassesLost(Init(db), acts) <==> ClearsBehind(Init(db), acts, false)
  {
    assert Inv(Init(db));
    TracksExec(Init(db), acts, false);
  }

  lemma SafeSays(t: State)
    requires Inv(t) && Safe(t)
    ensures (t.file.Holds? && t.file.db == t.db) || t.changed ||
            exists i :: 0 <= i < |t.pcs| && (t.pcs[i].Editing? || t.pcs[i].Mutated?)
  {
    if t.mutex.HeldBy? {
      assert t.pcs[t.mutex.id].Editing?;
    } else if !t.changed && t.file.at < Last(t) {
      assert t.pcs[t.makers[t.file.at]].Mutated?;
    }
  }

  /** In a run without such a clearing, with `changed` down the file lacks no version but
      those whose calls have yet to set it; so whenever the file differs from the map,
      `changed` is up or a call is between its first edit and that store. */
  lemma NoUpdateLost(db: DB, acts: seq<Action>)
    requires Exec(Init(db), acts).Some? && !ClearsBehind(Init(db), acts, false)
    ensures var t := Exec(Init(db), acts).value;
      && (!t.changed ==> t.file.Holds? && AllPending(t, t.file.at))
      && ((t.file.Holds? && t.file.db == t.db) || t.changed ||
          exists i :: 0 <= i < |t.pcs| && (t.pcs[i].Editing? || t.pcs[i].Mutated?))
  {
    assert Inv(Init(db));
    TracksExec(Init(db), acts, false);
    SafeSays(Exec(Init(db), acts).value);
  }

  // ---------------------------------------------------------------- uninterrupted stretches

  /** t can follow s, by some interleaving, without failing I/O. */
  ghost predicate Leads(s: State, t: State) {
    |s.pcs| == |s.ops| && |s.hist| > 0 && exists acts :: IoFails !in acts && Exec(s, acts) == Some(t)
  }

  lemma LeadsSelf(s: State)
    requires |s.pcs| == |s.ops| && |s.hist| > 0
    ensures Leads(s, s)
  {
    assert IoFails !in [] && Exec(s, []) == Some(s);
  }

  lemma LeadsOn(s: State, t: State, a: Action) returns (u: State)
    requires Leads(s, t) && |t.pcs| == |t.ops| && |t.hist| > 0 && Enabled(t, a) && a != IoFails
    ensures u == Do(t, a) && Leads(s, u)
  {
    u := Do(t, a);
    var acts :| IoFails !in acts && Exec(s, acts) == Some(t);
    ExecOne(t, a);
    ExecConcat(s, acts, [a]);
    assert IoFails !in acts + [a] && Exec(s, acts + [a]) == Some(u);
  }

  lemma LeadsThrough(s: State, t: State, u: State)
    requires Leads(s, t) && Leads(t, u)
    ensures Leads(s, u)
  {
    var a :| IoFails !in a && Exec(s, a) == Some(t);
    var b :| IoFails !in b && Exec(t, b) == Some(u);
    ExecConcat(s, a, b);
    assert IoFails !in a + b && Exec(s, a + b) == Some(u);
  }

  lemma LeadsKeepsInv(s: State, t: State)
    requires Inv(s) && Leads(s, t)
    ensures Inv(t)
  {
    var acts :| IoFails !in acts && Exec(s, acts) == Some(t);
    InvExec(s, acts);
  }

  lemma {:induction false} CopyAll(s: State) returns (t: State)
    requires |s.pcs| == |s.ops| && |s.hist| > 0 && s.run.Copying? && s.run.todo <= s.db.Keys
    ensures Leads(s, t) && t.run.Copying? && t.run.todo == {}
    ensures t == s.(run := Copying(s.run.final, {}, t.run.copy))
    decreases |s.run.todo|
  {
    LeadsSelf(s);
    if s.run.todo == {} {
      t := s;
    } else {
      var k :| k in s.run.todo;
      var u := LeadsOn(s, s, Copy(k));
      t := CopyAll(u);
      LeadsThrough(s, u, t);
    }
  }

  lemma TestToCopy(s: State) returns (t: State)
    requires |s.pcs| == |s.ops| && |s.hist| > 0 && s.mutex == Free && s.run.Testing? && s.changed
    ensures Leads(s, t)
    ensures t == s.(mutex := HeldByDump, run := Copying(s.run.final, s.db.Keys, map[]), file := Torn)
  {
    LeadsSelf(s);
    t := LeadsOn(s, s, Step);
    t := LeadsOn(s, t, Step);
    t := LeadsOn(s, t, Step);
  }

  lemma CopyOut(s: State) returns (t: State)
    requires Inv(s) && s.run.Copying?
    ensures Leads(s, t)
    ensures t == s.(mutex := Free, run := Writing(s.run.final, s.db, |s.hist| - 1))
  {
    var u := CopyAll(s);
    LeadsKeepsInv(s, u);
    CopyComplete(u);
    t := LeadsOn(s, u, Step);
  }

  /** A persist, run alone up to the write. */
  lemma DumpAlone(s: State) returns (t: State)
    requires Inv(s) && s.mutex == Free && s.run.Testing? && s.changed
    ensures Leads(s, t) && t == s.(run := Writing(s.run.final, s.db, |s.hist| - 1), file := Torn)
  {
    var u := TestToCopy(s);
    LeadsKeepsInv(s, u);
    t := CopyOut(u);
    LeadsThrough(s, u, t);
  }

  /** From a cleared flag an orderly shutdown leaves the file as it is. */
  lemma QuietShutdown(s: State) returns (t: State)
    requires |s.pcs| == |s.ops| && |s.hist| > 0 && s.run in {Waiting, Closing} && !s.changed
    ensures Leads(s, t) && t.run == Finished && t.file == s.file && t.db == s.db && t.pcs == s.pcs
    ensures t.hist == s.hist && t.makers == s.makers && t.ops == s.ops
  {
    LeadsSelf(s);
    t := s;
    if s.run == Waiting {
      t := LeadsOn(s, t, Cancel);
      t := LeadsOn(s, t, Select(Ctx));
      t := LeadsOn(s, t, Step);
      t := LeadsOn(s, t, Step);
    }
    t := LeadsOn(s, t, Step);
  }

  // ---------------------------------------------------------------- runs that lose an update

  lemma OvertakeClears(s: State, i: nat) returns (t: State)
    requires Inv(s) && Overtakes(s, MutStep(i))
    ensures Leads(s, t) && t.run == Leave(s.run.final)
    ensures t.db == s.db && t.ops == s.ops && !t.changed
    ensures t.pcs == s.pcs[i := Succeeded(s.pcs[i].version)]
    ensures t.file == Holds(s.hist[s.run.at], s.run.at)
  {
    LeadsSelf(s);
    t := LeadsOn(s, s, MutStep(i));
    if t.run.Writing? {
      t := LeadsOn(s, t, Step);
    }
    t := LeadsOn(s, t, Step);
  }

  /** Whenever a call can overtake the dump being written, the run can go on without any
      failure to an orderly shutdown after which the file still holds the dump, although
      the call has reported success. */
  lemma OvertakeLoses(s: State, i: nat) returns (t: State)
    requires Inv(s) && Overtakes(s, MutStep(i))
    ensures Leads(s, t) && t.run == Finished && t.db == s.db && t.ops == s.ops
    ensures t.pcs == s.pcs[i := Succeeded(s.pcs[i].version)]
    ensures t.file == Holds(s.hist[s.run.at], s.run.at) && t.file.at < s.pcs[i].version
  {
    var u := OvertakeClears(s, i);
    LeadsKeepsInv(s, u);
    t := QuietShutdown(u);
    LeadsThrough(s, u, t);
  }

  lemma StoreToEdit(s: State, url: URL, id: string) returns (t: State)
    requires |s.pcs| == |s.ops| && |s.hist| > 0 && s.mutex == Free && !s.shutdown && !Live(s.db, url.short)
    ensures Leads(s, t)
    ensures t == s.(mutex := HeldBy(|s.pcs|), pcs := s.pcs + [Editing([PutRecord(NewRecord(url, id))])],
                    ops := s.ops + [OpStore(url, false, Some(id))])
  {
    var i := |s.pcs|;
    var op := OpStore(url, false, Some(id));
    LeadsSelf(s);
    t := LeadsOn(s, s, Call(op));
    t := LeadsOn(s, t, MutStep(i));
    assert t.pcs == s.pcs + [Checked];
    t := LeadsOn(s, t, MutStep(i));
  }

  /** A successful Store, run alone up to its store of `changed`. */
  lemma StoreAlone(s: State, url: URL, id: string) returns (t: State)
    requires |s.pcs| == |s.ops| && |s.hist| > 0 && s.mutex == Free && !s.shutdown && !Live(s.db, url.short)
    ensures Leads(s, t)
    ensures t == s.(db := s.db[url.short := NewRecord(url, id)], hist := s.hist + [t.db],
                    makers := s.makers + [|s.pcs|], pcs := s.pcs + [Mutated(|s.hist|)],
                    ops := s.ops + [OpStore(url, false, Some(id))])
  {
    var i := |s.pcs|;
    t := StoreToEdit(s, url, id);
    assert [PutRecord(NewRecord(url, id))][1..] == [];
    t := LeadsOn(s, t, MutStep(i));
    assert t.pcs == s.pcs + [Editing([])];
    t := LeadsOn(s, t, MutStep(i));
    assert t.pcs == s.pcs + [Mutated(|s.hist|)];
  }

  /** A first store, reported, and the loop woken by its timer. */
  lemma StoreThenTick(s: State, url: URL, id: string) returns (t: State)
    requires |s.ops| == 0 && |s.hist| > 0
    requires s.pcs == [] && s.mutex == Free && !s.shutdown && !Live(s.db, url.short) && s.run == Waiting
    ensures Leads(s, t) && t.pcs == [Succeeded(|s.hist|)] && t.db == s.db[url.short := NewRecord(url, id)]
    ensures |t.ops| == 1 && t.hist == s.hist + [t.db] && t.mutex == Free && !t.shutdown
    ensures t.run == Testing(false) && t.changed
  {
    t := StoreAlone(s, url, id);
    t := LeadsOn(s, t, MutStep(0));
    t := LeadsOn(s, t, Select(Tick));
  }

  /** ... and its persist up to the write of the dump. */
  lemma StoreThenDump(s: State, url: URL, id: string) returns (t: State)
    requires Inv(s) && s.pcs == [] && s.mutex == Free && !s.shutdown && !Live(s.db, url.short) && s.run == Waiting
    ensures Leads(s, t) && t.pcs == [Succeeded(|s.hist|)] && t.db == s.db[url.short := NewRecord(url, id)]
    ensures |t.ops| == 1 && t.hist == s.hist + [t.db] && t.mutex == Free && !t.shutdown
    ensures t.run == Writing(false, t.db, |s.hist|)
  {
    var u := StoreThenTick(s, url, id);
    LeadsKeepsInv(s, u);
    t := DumpAlone(u);
    LeadsThrough(s, u, t);
  }

  /** So updates are lost: from any loaded database, two stores of fresh keys can both
      report success, and the loop stop in order, with only the first in the file. */
  lemma LostUpdateReachable(db: DB, a: URL, ida: string, b: URL, idb: string) returns (t: State)
    requires a.short != b.short && !Live(db, a.short) && !Live(db, b.short)
    ensures Reachable(db, t) && t.run == Finished && |t.pcs| == 2
    ensures t.pcs[0].Succeeded? && t.pcs[1].Succeeded?
    ensures t.file.Holds? && t.file.db == db[a.short := NewRecord(a, ida)]
    ensures t.db == t.file.db[b.short := NewRecord(b, idb)]
  {
    var s := Init(db);
    assert Inv(s);
    var u := StoreThenDump(s, a, ida);
    var v := StoreAlone(u, b, idb);
    LeadsThrough(s, u, v);
    LeadsKeepsInv(s, v);
    t := OvertakeLoses(v, 1);
    LeadsThrough(s, v, t);
  }
}
