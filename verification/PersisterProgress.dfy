/** How the persistence loop ends: what makes it, and that it can. */
module PersisterProgress {
  import opened Sequences
  import opened MemoryDb
  import opened PersisterProtocol
  import opened PersisterInvariant
  import opened PersisterTheorems

  // ---------------------------------------------------------------- causes

  /** Only a cancelled context or a call of Close has the loop stop, and only a stopped store
      refuses; a call of Close leaves its signal or has had it received. */
  ghost predicate StopCaused(s: State) {
    && (s.shutdown || s.run == Stopping ==> s.cancelled || s.closer != NotCalled)
    && (s.done ==> s.closer != NotCalled)
    && (s.closer != NotCalled ==> s.done || s.run == Stopping || s.shutdown)
    && (forall i :: 0 <= i < |s.pcs| && s.pcs[i].Refused? ==> s.shutdown)
  }

  lemma StopCausedMutStep(s: State, i: nat)
    requires MutexOk(s) && |s.hist| > 0 && StopCaused(s) && Enabled(s, MutStep(i))
    ensures var t := Do(s, MutStep(i)); StopCaused(t) && t.cancelled == s.cancelled && t.closer == s.closer
  {
    MutFrame(s, i);
  }

  lemma StopCausedRunStep(s: State)
    requires MutexOk(s) && |s.hist| > 0 && StopOk(s) && StopCaused(s) && Enabled(s, Step)
    ensures var t := Do(s, Step); StopCaused(t) && t.cancelled == s.cancelled && t.closer == s.closer
  {
    StepFrame(s);
  }

  lemma StopCausedStep(s: State, a: Action)
    requires MutexOk(s) && |s.hist| > 0 && StopOk(s) && StopCaused(s) && Enabled(s, a)
    ensures StopCaused(Do(s, a))
    ensures a != Cancel ==> Do(s, a).cancelled == s.cancelled
    ensures a != CloseCall && s.closer == NotCalled ==> Do(s, a).closer == NotCalled
  {
    match a
    case MutStep(i) => StopCausedMutStep(s, i);
    case Step => StopCausedRunStep(s);
    case Call(_) =>
    case Cancel =>
    case CloseCall =>
    case CloseReturn =>
    case Select(_) =>
    case Copy(_) =>
    case IoFails =>
  }

  lemma {:induction false} StopCausedExec(s: State, acts: seq<Action>)
    requires Inv(s) && StopCaused(s) && Exec(s, acts).Some?
    ensures StopCaused(Exec(s, acts).value)
    ensures Cancel !in acts ==> Exec(s, acts).value.cancelled == s.cancelled
    ensures CloseCall !in acts && s.closer == NotCalled ==> Exec(s, acts).value.closer == NotCalled
    decreases |acts|
  {
    if acts != [] {
      InvStep(s, acts[0]);
      StopCausedStep(s, acts[0]);
      StopCausedExec(Do(s, acts[0]), acts[1..]);
    }
  }

  /** Until the context is cancelled or Close is called the store does not shut down: the loop
      goes on and no call is refused. */
  lemma ShutdownNeedsCause(db: DB, acts: seq<Action>)
    requires Exec(Init(db), acts).Some? && Cancel !in acts && CloseCall !in acts
    ensures var s := Exec(Init(db), acts).value;
      && !s.shutdown && s.run != Stopping && s.run != Closing && s.run != Finished
      && forall i :: 0 <= i < |s.pcs| ==> !s.pcs[i].Refused?
  {
    assert Inv(Init(db));
    StopCausedExec(Init(db), acts);
    InvExec(Init(db), acts);
  }

  function Closes(acts: seq<Action>): nat {
    if acts == [] then 0 else (if acts[0] == CloseCall then 1 else 0) + Closes(acts[1..])
  }

  /** How often the loop takes the branch of Close's signal. */
  function Signals(acts: seq<Action>): nat {
    if acts == [] then 0 else (if acts[0] == Select(Done) then 1 else 0) + Signals(acts[1..])
  }

  lemma SignalMoves(s: State, a: Action)
    requires |s.pcs| == |s.ops| && |s.hist| > 0 && Enabled(s, a)
    ensures (if s.done then 1 else 0) + (if a == CloseCall && !s.done then 1 else 0) ==
            (if Do(s, a).done then 1 else 0) + (if a == Select(Done) then 1 else 0)
    ensures a == CloseCall <==> s.closer == NotCalled && Do(s, a).closer != NotCalled
  {
    match a
    case MutStep(i) =>
      match s.pcs[i] {
        case Checked => if Edits(s.db, s.ops[i]).Ok? {} else {}
        case _ =>
      }
    case Step => match s.run { case _ => }
    case Call(_) =>
    case Cancel =>
    case CloseCall =>
    case CloseReturn =>
    case Select(_) =>
    case Copy(_) =>
    case IoFails =>
  }

  lemma {:induction false} SignalsFrom(s: State, acts: seq<Action>)
    requires |s.pcs| == |s.ops| && |s.hist| > 0 && Exec(s, acts).Some? && (s.done ==> s.closer != NotCalled)
    ensures (if s.done then 1 else 0) + Closes(acts) == (if Exec(s, acts).value.done then 1 else 0) + Signals(acts)
    ensures Closes(acts) == if s.closer == NotCalled && Exec(s, acts).value.closer != NotCalled then 1 else 0
    ensures s.closer != NotCalled ==> Exec(s, acts).value.closer != NotCalled
    decreases |acts|
  {
    if acts != [] {
      SignalMoves(s, acts[0]);
      SignalsFrom(Do(s, acts[0]), acts[1..]);
    }
  }

  /** Close is called once at most, its signal is sent then and received once at most. */
  lemma SignalBalance(db: DB, acts: seq<Action>)
    requires Exec(Init(db), acts).Some?
    ensures Closes(acts) <= 1
    ensures Closes(acts) == Signals(acts) + if Exec(Init(db), acts).value.done then 1 else 0
  {
    SignalsFrom(Init(db), acts);
  }

  // ---------------------------------------------------------------- the way to the end

  /** What is left to do before the mutex of the store is free. */
  ghost function Held(p: State): nat
    requires MutexOk(p)
  {
    if p.mutex.HeldBy? then
      assert p.pcs[p.mutex.id].Editing?;
      1 + |p.pcs[p.mutex.id].todo|
    else if p.run.Copying? then 1 + |p.run.todo|
    else 0
  }

  /** The next step of whoever has it. */
  ghost function HolderStep(p: State): Action {
    if p.mutex.HeldBy? then MutStep(p.mutex.id)
    else if p.run.Copying? && p.run.todo != {} then
      var k :| k in p.run.todo;
      Copy(k)
    else Step
  }

  /** Calls that do not have the mutex stay where they are; one that has it gets to the end
      of its edits. */
  ghost predicate CallsWait(p: State, t: State) {
    && |t.pcs| == |p.pcs| && t.ops == p.ops
    && (forall i :: 0 <= i < |p.pcs| && p.mutex != HeldBy(i) ==> t.pcs[i] == p.pcs[i])
    && t.shutdown == p.shutdown && t.cancelled == p.cancelled && t.closer == p.closer
    && (if p.run.Copying? then t.run.Copying? || t.run.Writing? else t.run == p.run)
  }

  lemma CallsWaitOn(p: State, u: State, t: State)
    requires CallsWait(p, u) && CallsWait(u, t) && (u.mutex == p.mutex || u.mutex == Free)
    ensures CallsWait(p, t)
  {
    forall i | 0 <= i < |p.pcs| && p.mutex != HeldBy(i) ensures t.pcs[i] == p.pcs[i] {
      assert u.pcs[i] == p.pcs[i];
    }
  }

  lemma MutProgress(p: State)
    requires Inv(p) && p.mutex.HeldBy?
    ensures Enabled(p, HolderStep(p))
    ensures var t := Do(p, HolderStep(p));
      && MutexOk(t) && CallsWait(p, t) && Held(t) < Held(p)
      && (t.mutex == p.mutex || (t.mutex == Free && t.pcs[p.mutex.id].Mutated?))
  {
    MutexStep(p, HolderStep(p));
    MutFrame(p, p.mutex.id);
  }

  lemma DumpProgress(p: State)
    requires Inv(p) && p.run.Copying?
    ensures Enabled(p, HolderStep(p))
    ensures var t := Do(p, HolderStep(p));
      && MutexOk(t) && CallsWait(p, t) && Held(t) < Held(p)
      && (t.mutex == p.mutex || (t.mutex == Free && t.run.Writing?))
      && t.run.final == p.run.final
  {
    MutexStep(p, HolderStep(p));
  }

  ghost function Rank(run: RunPc): nat {
    match run
    case Testing(_) => 8
    case Opening(_) => 7
    case Locking(_) => 6
    case Copying(_, _, _) => 5
    case Writing(_, _, _) => 4
    case Clearing(_, _) => 3
    case Waiting => 2
    case Stopping => 1
    case _ => 0
  }

  /** One step of the store's loop towards its shutdown. */
  lemma StopProgress(p: State)
    requires Inv(p) && p.cancelled && !p.shutdown && !p.run.Copying?
    requires p.run.Locking? ==> p.mutex == Free
    ensures var a := if p.run == Waiting then Select(Ctx) else Step;
      && Enabled(p, a)
      && Do(p, a).cancelled && (Do(p, a).shutdown || Rank(Do(p, a).run) < Rank(p.run))
  {
  }

  /** t can follow s by steps of the calls, the loop and Close alone. */
  ghost predicate LeadsAlone(s: State, t: State) {
    |s.pcs| == |s.ops| && |s.hist| > 0 &&
    exists acts :: (forall a :: a in acts ==> OfThread(a)) && Exec(s, acts) == Some(t)
  }

  lemma AloneSelf(s: State)
    requires |s.pcs| == |s.ops| && |s.hist| > 0
    ensures LeadsAlone(s, s)
  {
    assert (forall a :: a in [] ==> OfThread(a)) && Exec(s, []) == Some(s);
  }

  lemma AloneFirst(s: State, a: Action, t: State)
    requires |s.pcs| == |s.ops| && |s.hist| > 0 && OfThread(a) && Enabled(s, a) && LeadsAlone(Do(s, a), t)
    ensures LeadsAlone(s, t)
  {
    var acts :| (forall b :: b in acts ==> OfThread(b)) && Exec(Do(s, a), acts) == Some(t);
    assert ([a] + acts)[1..] == acts;
    assert (forall b :: b in [a] + acts ==> OfThread(b)) && Exec(s, [a] + acts) == Some(t);
  }

  /** The context is cancelled, or Close has been called. */
  predicate Asked(s: State) { s.cancelled || s.closer != NotCalled }

  /** How far the loop is from its end; the final persist comes after all others. */
  ghost function ToEnd(run: RunPc): nat {
    match run
    case Testing(f) => if f then 7 else 16
    case Opening(f) => if f then 6 else 15
    case Locking(f) => if f then 5 else 14
    case Copying(f, _, _) => if f then 4 else 13
    case Writing(f, _, _) => if f then 3 else 12
    case Clearing(f, _) => if f then 2 else 11
    case Waiting => 10
    case Stopping => 9
    case Closing => 1
    case Finished => 0
  }

  /** The loop's next step, or that of whoever keeps it waiting. */
  ghost function EndStep(s: State): Action {
    if s.run == Waiting then Select(if s.done then Done else Ctx)
    else if s.run.Copying? || (s.run.Locking? && s.mutex.HeldBy?) then HolderStep(s)
    else Step
  }

  lemma EndAlone(s: State)
    requires Inv(s) && StopCaused(s) && Asked(s) && s.run != Finished && !s.run.Copying?
    requires s.run.Locking? ==> s.mutex == Free
    ensures Enabled(s, EndStep(s)) && OfThread(EndStep(s))
    ensures var t := Do(s, EndStep(s)); Asked(t) && t.closer == s.closer && ToEnd(t.run) < ToEnd(s.run)
  {
    match s.run
    case Waiting =>
    case Testing(_) =>
    case Clearing(_, _) =>
    case _ =>
  }

  lemma EndProgress(s: State)
    requires Inv(s) && StopCaused(s) && Asked(s) && s.run != Finished
    ensures Enabled(s, EndStep(s)) && OfThread(EndStep(s))
    ensures var t := Do(s, EndStep(s));
      && MutexOk(t) && Asked(t) && t.closer == s.closer
      && (ToEnd(t.run) < ToEnd(s.run) || (ToEnd(t.run) == ToEnd(s.run) && Held(t) < Held(s)))
  {
    if s.run.Copying? {
      DumpProgress(s);
    } else if s.run.Locking? && s.mutex.HeldBy? {
      MutProgress(s);
    } else {
      EndAlone(s);
      MutexStep(s, EndStep(s));
    }
  }

  lemma {:induction false} ReachEnd(s: State) returns (t: State)
    requires Inv(s) && StopCaused(s) && Asked(s)
    ensures LeadsAlone(s, t) && t.run == Finished && (s.closer != NotCalled ==> t.closer == Returned)
    decreases ToEnd(s.run), Held(s)
  {
    AloneSelf(s);
    t := s;
    if s.run != Finished {
      var a := EndStep(s);
      EndProgress(s);
      InvStep(s, a);
      StopCausedStep(s, a);
      t := ReachEnd(Do(s, a));
      AloneFirst(s, a, t);
    } else if s.closer == Blocked {
      t := Do(s, CloseReturn);
      AloneSelf(t);
      AloneFirst(s, CloseReturn, t);
    }
  }

  lemma CausedReachable(db: DB, s: State)
    requires Reachable(db, s)
    ensures Inv(s) && StopCaused(s)
  {
    var acts :| Exec(Init(db), acts) == Some(s);
    assert Inv(Init(db));
    StopCausedExec(Init(db), acts);
    InvExec(Init(db), acts);
  }

  /** Calls, loop and Close can bring the loop to its end by themselves exactly when the
      context is cancelled or Close has been called. */
  lemma EndPossibleExactly(db: DB, s: State)
    requires Reachable(db, s)
    ensures (exists t :: LeadsAlone(s, t) && t.run == Finished) <==> Asked(s)
  {
    CausedReachable(db, s);
    forall t | LeadsAlone(s, t) && t.run == Finished ensures Asked(s) {
      var acts :| (forall a :: a in acts ==> OfThread(a)) && Exec(s, acts) == Some(t);
      InvExec(s, acts);
      StopCausedExec(s, acts);
    }
    if Asked(s) {
      var t := ReachEnd(s);
    }
  }

  /** A Close that has been called can return, by steps of calls, loop and Close alone. */
  lemma CloseCanReturn(db: DB, s: State) returns (t: State)
    requires Reachable(db, s) && s.closer == Blocked
    ensures LeadsAlone(s, t) && t.closer == Returned && t.run == Finished
  {
    CausedReachable(db, s);
    t := ReachEnd(s);
  }

  // ---------------------------------------------------------------- failing dumps

  /** Failing to open the file ends that dump with the file as it was and changed still set. */
  lemma FailingOpenKeeps(db: DB, s: State)
    requires Reachable(db, s) && s.run.Opening?
    ensures Enabled(s, IoFails) && |s.pcs| == |s.ops| && |s.hist| > 0
    ensures var t := Do(s, IoFails); t.file == s.file && t.changed && t.run == if s.run.final then Closing else Waiting
  {
    InvReachable(db, s);
  }

  /** A file that a dump has torn is announced: the flag stays up until a dump succeeds. */
  lemma TornIsAnnounced(db: DB, s: State)
    requires Reachable(db, s) && s.file == Torn
    ensures s.changed
  {
    InvReachable(db, s);
  }

  /** Whenever the loop has truncated the file, failing I/O can end that dump with the file
      torn, and the last one for good. */
  lemma FailingDumpTears(db: DB, s: State)
    requires Reachable(db, s) && s.run.Writing?
    ensures Enabled(s, IoFails) && |s.pcs| == |s.ops| && |s.hist| > 0
    ensures var t := Do(s, IoFails); t.file == Torn && t.changed && t.run == if s.run.final then Closing else Waiting
  {
    InvReachable(db, s);
  }
}
