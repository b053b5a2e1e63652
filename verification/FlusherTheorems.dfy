/** What the queue protocol guarantees in every run, and exactly where it does not. */
module FlusherTheorems {
  import opened Sequences
  import opened FlusherProtocol
  import opened FlusherInvariant

  // ---------------------------------------------------------------- runs

  /** t can follow s, by some interleaving. */
  ghost predicate Leads<T(!new)>(s: State<T>, t: State<T>, flushSize: int) {
    |s.pcs| == |s.elems| && exists acts: seq<Action<T>> :: Exec(s, acts, flushSize) == Some(t)
  }

  lemma LeadsSelf<T(!new)>(s: State<T>, flushSize: int)
    requires |s.pcs| == |s.elems|
    ensures Leads(s, s, flushSize)
  {
    assert Exec(s, [], flushSize) == Some(s);
  }

  lemma LeadsOn<T(!new)>(s: State<T>, t: State<T>, a: Action<T>, flushSize: int)
    requires |t.pcs| == |t.elems|
    requires Leads(s, t, flushSize) && Enabled(t, a)
    ensures Leads(s, Do(t, a, flushSize), flushSize)
  {
    var acts: seq<Action<T>> :| Exec(s, acts, flushSize) == Some(t);
    var u := Do(t, a, flushSize);
    assert Exec(u, [], flushSize) == Some(u);
    assert Exec(t, [a], flushSize) == Some(u);
    ExecConcat(s, acts, [a], flushSize);
    assert Exec(s, acts + [a], flushSize) == Some(u);
  }

  lemma LeadsThrough<T(!new)>(s: State<T>, t: State<T>, u: State<T>, flushSize: int)
    requires |t.pcs| == |t.elems|
    requires Leads(s, t, flushSize) && Leads(t, u, flushSize)
    ensures Leads(s, u, flushSize)
  {
    var a: seq<Action<T>> :| Exec(s, a, flushSize) == Some(t);
    var b: seq<Action<T>> :| Exec(t, b, flushSize) == Some(u);
    ExecConcat(s, a, b, flushSize);
    assert Exec(s, a + b, flushSize) == Some(u);
  }

  // ---------------------------------------------------------------- uninterrupted stretches

  /** doFlush, once it has the mutex, without interruption. */
  lemma FinishFlush<T(!new)>(s: State<T>, flushSize: int) returns (t: State<T>)
    requires |s.pcs| == |s.elems| && s.run.Flushing?
    ensures Leads(s, t, flushSize)
    ensures t == s.(m := FlushBuf(s.m).(flushNeed := false), mutex := Free,
                    run := if s.run.cause == Ctx then Returned else Selecting)
  {
    LeadsSelf(s, flushSize);
    LeadsOn(s, s, RunStep, flushSize);
    var s1 := Do(s, RunStep, flushSize);
    LeadsOn(s, s1, RunStep, flushSize);
    var s2 := Do(s1, RunStep, flushSize);
    LeadsOn(s, s2, RunStep, flushSize);
    t := Do(s2, RunStep, flushSize);
  }

  /** What Run does between one select and the next. */
  lemma DoFlushAlone<T(!new)>(s: State<T>, flushSize: int) returns (t: State<T>)
    requires |s.pcs| == |s.elems| && s.mutex == Free && s.run.Heading?
    ensures Leads(s, t, flushSize)
    ensures t.m == FlushBuf(s.m).(flushNeed := false) && t.mutex == Free && t.pcs == s.pcs && t.elems == s.elems
    ensures t.run == if s.run.cause == Ctx then Returned else Selecting
  {
    LeadsSelf(s, flushSize);
    LeadsOn(s, s, RunStep, flushSize);
    var u := Do(s, RunStep, flushSize);
    t := FinishFlush(u, flushSize);
    LeadsThrough(s, u, t, flushSize);
  }

  // ---------------------------------------------------------------- conservation and wake-ups

  lemma AcceptedAppended<T>(s: State<T>, i: nat)
    requires MutexOk(s) && OrderOk(s) && i < |s.pcs| && s.pcs[i] == Accepted
    ensures i in AppendedIds(s)
  {
    assert i in s.order;
    assert HolderAt(s, Entered) ==> s.order == AppendedIds(s) + [s.mutex.id];
  }

  lemma AppendedDistinct<T>(s: State<T>)
    requires OrderOk(s)
    ensures AppendedIds(s) <= s.order && Distinct(AppendedIds(s))
    ensures forall i :: i in AppendedIds(s) ==> i < |s.pcs| && s.pcs[i].Admitted()
  {
    AppendedInOrder(s);
  }

  /** In every reachable state the flushed batches followed by the buffer are the pushed
      elements in lock order, each once; `size` is their number; no batch is empty; and
      every call that returned nil is among them. */
  lemma ConservationInOrder<T(!new)>(s: State<T>, flushSize: int)
    requires Reachable(s, flushSize)
    ensures Inv(s, flushSize)
    ensures Flatten(s.m.batches) + s.m.buf == Pick(s.elems, AppendedIds(s))
    ensures s.m.size == |Flatten(s.m.batches)| + |s.m.buf|
    ensures forall b :: b in s.m.batches ==> |b| > 0
    ensures AppendedIds(s) <= s.order && Distinct(AppendedIds(s))
    ensures forall i :: 0 <= i < |s.pcs| && s.pcs[i] == Accepted ==> i in AppendedIds(s)
    ensures forall i :: i in AppendedIds(s) ==> i < |s.pcs| && s.pcs[i].Admitted()
  {
    InvReachable(s, flushSize);
    AppendedDistinct(s);
    forall i | 0 <= i < |s.pcs| && s.pcs[i] == Accepted ensures i in AppendedIds(s) {
      AcceptedAppended(s, i);
    }
  }

  /** Whenever the mutex is free the flag says exactly that the buffer is full enough, and
      a full buffer has a wake-up on its way. */
  lemma NoLostWakeup<T(!new)>(s: State<T>, flushSize: int)
    requires Reachable(s, flushSize) && s.mutex == Free
    ensures s.m.flushNeed <==> s.m.buf != [] && |s.m.buf| >= flushSize
    ensures s.m.buf != [] && |s.m.buf| >= flushSize ==> s.m.token || s.run == Heading(Token)
  {
    InvReachable(s, flushSize);
  }

  /** Once Run has received from the channel, no Push can be blocked in its send until the
      flush is done. */
  lemma TokenPathUnblocked<T(!new)>(s: State<T>, i: nat, flushSize: int)
    requires Reachable(s, flushSize)
    requires s.run in {Heading(Token), Flushing(Token), Clearing(Token), Releasing(Token)}
    requires i < |s.pcs| && s.pcs[i] == Sending
    ensures s.run == Heading(Token) && Enabled(s, PushStep(i))
  {
    InvReachable(s, flushSize);
    assert s.mutex == HeldBy(i);
  }

  ghost function StepsLeft(pc: PushPc): nat {
    match pc
    case Entered => 5
    case Appended => 4
    case Sending => 3
    case Sent => 2
    case Leaving => 1
    case _ => 0
  }

  lemma HolderMoves<T>(s: State<T>, flushSize: int)
    requires MutexOk(s) && s.mutex.HeldBy? && Enabled(s, PushStep(s.mutex.id))
    ensures var t := Do(s, PushStep(s.mutex.id), flushSize);
      && t.run == s.run && s.m.buf <= t.m.buf
      && (t.mutex == Free || (t.mutex == s.mutex && StepsLeft(t.pcs[s.mutex.id]) < StepsLeft(s.pcs[s.mutex.id])))
  {
    var i := s.mutex.id;
    assert s.pcs[i].Critical();
    match s.pcs[i]
    case Entered =>
    case Appended =>
    case Sending =>
    case Sent =>
    case Leaving =>
  }

  // ---------------------------------------------------------------- causes

  /** The sends in a run: the steps of calls at their send. */
  function Sends<T(==)>(s: State<T>, acts: seq<Action<T>>, flushSize: int): nat
    requires |s.pcs| == |s.elems|
    decreases |acts|
  {
    if acts == [] || !Enabled(s, acts[0]) then 0
    else
      (if acts[0].PushStep? && s.pcs[acts[0].id] == Sending then 1 else 0) +
      Sends(Do(s, acts[0], flushSize), acts[1..], flushSize)
  }

  /** How often Run takes the channel branch. */
  function Receives<T(==)>(acts: seq<Action<T>>): nat {
    if acts == [] then 0 else (if acts[0] == Select(Token) then 1 else 0) + Receives(acts[1..])
  }

  lemma TokenMoves<T>(s: State<T>, a: Action<T>, flushSize: int)
    requires |s.pcs| == |s.elems| && Enabled(s, a)
    ensures (if s.m.token then 1 else 0) + (if a.PushStep? && s.pcs[a.id] == Sending then 1 else 0) ==
            (if Do(s, a, flushSize).m.token then 1 else 0) + (if a == Select(Token) then 1 else 0)
  {
    match a
    case PushStep(i) =>
      match s.pcs[i] {
        case Sending =>
        case _ =>
      }
    case Call(e) =>
    case Cancel =>
    case Select(c) =>
    case RunStep =>
  }

  lemma {:induction false} TokensBalanceFrom<T>(s: State<T>, acts: seq<Action<T>>, flushSize: int)
    requires |s.pcs| == |s.elems| && Exec(s, acts, flushSize).Some?
    ensures (if s.m.token then 1 else 0) + Sends(s, acts, flushSize) ==
            (if Exec(s, acts, flushSize).value.m.token then 1 else 0) + Receives(acts)
    decreases |acts|
  {
    if acts != [] {
      TokenMoves(s, acts[0], flushSize);
      TokensBalanceFrom(Do(s, acts[0], flushSize), acts[1..], flushSize);
    }
  }

  /** In every run each wake-up that Run received was sent by a Push, and one at most is under
      way: the sends are the receives and the token in the channel. */
  lemma TokensBalance<T>(acts: seq<Action<T>>, flushSize: int)
    requires Exec(Init<T>(), acts, flushSize).Some?
    ensures Sends(Init<T>(), acts, flushSize) ==
            Receives(acts) + if Exec(Init<T>(), acts, flushSize).value.m.token then 1 else 0
  {
    TokensBalanceFrom(Init<T>(), acts, flushSize);
  }

  /** Only a cancelled context has Run stop, and only a stopped queue refuses. */
  ghost predicate StopCaused<T>(s: State<T>) {
    && (s.m.shutdown || s.run == Stopping || s.run == Returned ==> s.cancelled)
    && (forall i :: 0 <= i < |s.pcs| && s.pcs[i] == Rejected ==> s.m.shutdown)
  }

  lemma StopCausedStep<T>(s: State<T>, a: Action<T>, flushSize: int)
    requires MutexOk(s) && StopOk(s) && StopCaused(s) && Enabled(s, a)
    ensures StopCaused(Do(s, a, flushSize))
    ensures a != Cancel ==> Do(s, a, flushSize).cancelled == s.cancelled
  {
    match a
    case PushStep(i) => PushFrame(s, i, flushSize);
    case Call(e) =>
    case Cancel =>
    case Select(c) =>
    case RunStep =>
  }

  lemma {:induction false} StopCausedExec<T>(s: State<T>, acts: seq<Action<T>>, flushSize: int)
    requires Control(s, flushSize) && StopCaused(s) && Exec(s, acts, flushSize).Some?
    ensures StopCaused(Exec(s, acts, flushSize).value)
    ensures Cancel !in acts ==> Exec(s, acts, flushSize).value.cancelled == s.cancelled
    decreases |acts|
  {
    if acts != [] {
      ControlStep(s, acts[0], flushSize);
      StopCausedStep(s, acts[0], flushSize);
      StopCausedExec(Do(s, acts[0], flushSize), acts[1..], flushSize);
    }
  }

  /** Until the context is cancelled the queue does not shut down: Run does not stop and no
      Push is refused. */
  lemma ShutdownNeedsCancel<T>(acts: seq<Action<T>>, flushSize: int)
    requires Exec(Init<T>(), acts, flushSize).Some? && Cancel !in acts
    ensures var s := Exec(Init<T>(), acts, flushSize).value;
      && !s.m.shutdown && s.run != Stopping && s.run != Returned
      && forall i :: 0 <= i < |s.pcs| ==> s.pcs[i] != Rejected
  {
    StopCausedExec(Init<T>(), acts, flushSize);
  }

  // ---------------------------------------------------------------- deadlock, exactly

  /** Some call of Push or Run has not returned, and no thread has an enabled action. */
  ghost predicate Stuck<T(!new)>(s: State<T>) {
    && (s.run != Returned || exists i :: 0 <= i < |s.pcs| && !s.pcs[i].Finished())
    && forall a: Action<T> :: a.OfThread() ==> !Enabled(s, a)
  }

  /** A Push holds the mutex at its send, the channel is full, the flag is down, and Run
      will not come to the channel before it has had the mutex, if at all. */
  ghost predicate Wedged<T>(s: State<T>) {
    HolderAt(s, Sending) && s.m.token && !s.m.flushNeed &&
    s.run in {Heading(Timer), Heading(Ctx), Returned}
  }

  lemma StuckIsWedged<T(!new)>(s: State<T>, flushSize: int)
    requires Inv(s, flushSize) && Stuck(s)
    ensures Wedged(s)
    ensures forall i :: 0 <= i < |s.pcs| && s.mutex != HeldBy(i) ==> s.pcs[i] in {Passed, Accepted, Rejected}
  {
    assert !Enabled(s, RunStep) && !Enabled(s, Select(Timer));
    assert forall i: nat {:trigger s.pcs[i]} :: !Enabled(s, PushStep(i));
    if s.mutex.HeldBy? {
      assert !Enabled(s, PushStep(s.mutex.id));
      assert HolderAt(s, Sending);
    }
    assert s.run == Returned || (s.run.Heading? && s.run.cause != Token);
    forall i | 0 <= i < |s.pcs| && s.mutex != HeldBy(i)
      ensures s.pcs[i] in {Passed, Accepted, Rejected}
    {
      assert !s.pcs[i].Critical();
      assert !Enabled(s, PushStep(i));
    }
  }

  /** The only reachable states in which unfinished threads cannot move are the wedged ones
      whose other calls are all waiting for the mutex or finished. */
  lemma StuckExactly<T(!new)>(s: State<T>, flushSize: int)
    requires Reachable(s, flushSize)
    ensures Stuck(s) <==>
      Wedged(s) &&
      forall i :: 0 <= i < |s.pcs| && s.mutex != HeldBy(i) ==> s.pcs[i] in {Passed, Accepted, Rejected}
  {
    InvReachable(s, flushSize);
    if Stuck(s) {
      StuckIsWedged(s, flushSize);
    }
    if Wedged(s) && forall i :: 0 <= i < |s.pcs| && s.mutex != HeldBy(i) ==> s.pcs[i] in {Passed, Accepted, Rejected} {
      assert !s.pcs[s.mutex.id].Finished();
    }
  }

  lemma WedgedStep<T>(s: State<T>, a: Action<T>, flushSize: int)
    requires Inv(s, flushSize) && Wedged(s) && Enabled(s, a)
    ensures var t := Do(s, a, flushSize);
      && Wedged(t) && t.mutex == s.mutex && t.run == s.run && t.m == s.m
      && |s.pcs| <= |t.pcs|
      && forall i :: 0 <= i < |t.pcs| && t.pcs[i] == Accepted ==> i < |s.pcs| && s.pcs[i] == Accepted
  {
    match a
    case PushStep(i) =>
      PushFrame(s, i, flushSize);
      assert s.pcs[i] == Called;
    case Call(e) =>
    case Cancel =>
    case Select(c) =>
    case RunStep =>
  }

  /** Nothing gets out of a wedged state, whatever happens and whoever calls: the mutex
      never changes hands again, nothing more is flushed and no further Push returns nil. */
  lemma {:induction false} WedgedForever<T(!new)>(s: State<T>, acts: seq<Action<T>>, flushSize: int)
    requires Inv(s, flushSize) && Wedged(s) && Exec(s, acts, flushSize).Some?
    ensures var t := Exec(s, acts, flushSize).value;
      && Wedged(t) && t.mutex == s.mutex && t.run == s.run && t.m == s.m
      && |s.pcs| <= |t.pcs|
      && forall i :: 0 <= i < |t.pcs| && t.pcs[i] == Accepted ==> i < |s.pcs| && s.pcs[i] == Accepted
    decreases |acts|
  {
    if acts != [] {
      InvStep(s, acts[0], flushSize);
      WedgedStep(s, acts[0], flushSize);
      WedgedForever(Do(s, acts[0], flushSize), acts[1..], flushSize);
    }
  }

  /** doFlush lowers the flag while a token lies in the channel. */
  predicate LeavesToken<T>(s: State<T>, a: Action<T>) {
    a == RunStep && s.run.Clearing? && s.m.token
  }

  predicate NeverLeavesToken<T>(s: State<T>, acts: seq<Action<T>>, flushSize: int)
    requires |s.pcs| == |s.elems|
    decreases |acts|
  {
    acts == [] ||
    (Enabled(s, acts[0]) && !LeavesToken(s, acts[0]) &&
     NeverLeavesToken(Do(s, acts[0], flushSize), acts[1..], flushSize))
  }

  ghost predicate NoStaleToken<T>(s: State<T>) {
    s.m.token ==> s.m.flushNeed || HolderAt(s, Sent)
  }

  lemma NoStaleTokenStep<T>(s: State<T>, a: Action<T>, flushSize: int)
    requires Inv(s, flushSize) && NoStaleToken(s) && Enabled(s, a) && !LeavesToken(s, a)
    ensures NoStaleToken(Do(s, a, flushSize))
  {
    match a
    case PushStep(i) =>
      PushFrame(s, i, flushSize);
      match s.pcs[i] {
        case Called => if HolderAt(s, Sent) { assert Do(s, a, flushSize).pcs[s.mutex.id] == Sent; }
        case _ =>
      }
    case Call(e) => if HolderAt(s, Sent) { assert Do(s, a, flushSize).pcs[s.mutex.id] == Sent; }
    case Cancel =>
    case Select(c) =>
    case RunStep =>
  }

  lemma {:induction false} CleanExecIsNotWedged<T>(s: State<T>, acts: seq<Action<T>>, flushSize: int)
    requires Inv(s, flushSize) && NoStaleToken(s) && NeverLeavesToken(s, acts, flushSize)
    ensures Exec(s, acts, flushSize).Some? && !Wedged(Exec(s, acts, flushSize).value)
    decreases |acts|
  {
    if acts != [] {
      InvStep(s, acts[0], flushSize);
      NoStaleTokenStep(s, acts[0], flushSize);
      CleanExecIsNotWedged(Do(s, acts[0], flushSize), acts[1..], flushSize);
    }
  }

  /** A run in which no doFlush lowers the flag over a waiting token never wedges. */
  lemma WedgeNeedsStaleToken<T(!new)>(acts: seq<Action<T>>, flushSize: int)
    requires NeverLeavesToken(Init<T>(), acts, flushSize)
    ensures Exec(Init<T>(), acts, flushSize).Some? && !Wedged(Exec(Init<T>(), acts, flushSize).value)
  {
    assert Inv(Init<T>(), flushSize);
    CleanExecIsNotWedged(Init<T>(), acts, flushSize);
  }

  // ---------------------------------------------------------------- when a flush is still possible

  /** The holder of the mutex is at a send, or will come to one. */
  predicate WillSend<T>(s: State<T>, flushSize: int) {
    HolderAt(s, Sending) ||
    (HolderAt(s, Appended) && |s.m.buf| >= flushSize) ||
    (HolderAt(s, Entered) && |s.m.buf| + 1 >= flushSize)
  }

  /** Run has left select by timer or context and needs the mutex, whose holder will send on
      the full channel with the flag down. */
  ghost predicate Doomed<T>(s: State<T>, flushSize: int) {
    && (s.run.Stopping? || (s.run.Heading? && s.run.cause != Token))
    && s.m.token && !s.m.flushNeed && WillSend(s, flushSize)
  }

  /** Run has not done its last flush. */
  ghost predicate FlushAhead<T>(s: State<T>) {
    s.run !in {Clearing(Ctx), Releasing(Ctx), Returned}
  }

  lemma DoomedStep<T>(s: State<T>, a: Action<T>, flushSize: int)
    requires MutexOk(s) && Doomed(s, flushSize) && Enabled(s, a)
    ensures Doomed(Do(s, a, flushSize), flushSize)
  {
    match a
    case PushStep(i) =>
      PushFrame(s, i, flushSize);
      if s.mutex != HeldBy(i) {
        assert Do(s, a, flushSize).pcs[s.mutex.id] == s.pcs[s.mutex.id];
      }
    case Call(e) =>
      assert Do(s, a, flushSize).pcs[s.mutex.id] == s.pcs[s.mutex.id];
    case Cancel =>
    case Select(c) =>
    case RunStep =>
  }

  lemma {:induction false} DoomedForever<T>(s: State<T>, acts: seq<Action<T>>, flushSize: int)
    requires MutexOk(s) && Doomed(s, flushSize) && Exec(s, acts, flushSize).Some?
    ensures Doomed(Exec(s, acts, flushSize).value, flushSize)
    decreases |acts|
  {
    if acts != [] {
      MutexStep(s, acts[0], flushSize);
      DoomedStep(s, acts[0], flushSize);
      DoomedForever(Do(s, acts[0], flushSize), acts[1..], flushSize);
    }
  }

  /** While the holder is not bound to block, its next step is enabled and it stays so. */
  lemma SpareHolder<T>(s: State<T>, flushSize: int)
    requires MutexOk(s) && FlagOk(s, flushSize) && TokenPathOk(s)
    requires s.run.Heading? && s.mutex.HeldBy? && !Doomed(s, flushSize)
    ensures Enabled(s, PushStep(s.mutex.id))
    ensures !Doomed(Do(s, PushStep(s.mutex.id), flushSize), flushSize)
  {
    var i := s.mutex.id;
    assert s.pcs[i].Critical();
    assert HolderAt(s, s.pcs[i]);
    if HolderAt(s, Sending) {
      assert WillSend(s, flushSize) && !s.m.token;
    }
    PushFrame(s, i, flushSize);
    match s.pcs[i]
    case Entered =>
    case Appended =>
    case Sending =>
    case Sent =>
    case Leaving =>
  }

  /** That step leaves Run and the other calls where they are and brings the holder on. */
  lemma SpareHolderStep<T>(s: State<T>, flushSize: int)
    requires Control(s, flushSize) && s.run.Heading? && s.mutex.HeldBy? && !Doomed(s, flushSize)
    ensures Enabled(s, PushStep(s.mutex.id))
    ensures var t := Do(s, PushStep(s.mutex.id), flushSize);
      && Control(t, flushSize) && !Doomed(t, flushSize) && t.run == s.run
      && |t.pcs| == |s.pcs| && t.elems == s.elems
      && (forall i :: 0 <= i < |s.pcs| && s.mutex != HeldBy(i) ==> t.pcs[i] == s.pcs[i])
      && (t.mutex == Free || (t.mutex == s.mutex && StepsLeft(t.pcs[s.mutex.id]) < StepsLeft(s.pcs[s.mutex.id])))
      && StepsLeft(s.pcs[s.mutex.id]) > 0
  {
    SpareHolder(s, flushSize);
    HolderMoves(s, flushSize);
    PushFrame(s, s.mutex.id, flushSize);
    ControlStep(s, PushStep(s.mutex.id), flushSize);
  }

  /** The holder of the mutex in s, if any, takes all the actions but the last, which is Run's. */
  predicate HolderThenRun<T(==)>(s: State<T>, acts: seq<Action<T>>) {
    && |acts| > 0 && acts[|acts| - 1] == RunStep
    && forall k :: 0 <= k < |acts| - 1 ==> s.mutex.HeldBy? && acts[k] == PushStep(s.mutex.id)
  }

  /** A Run that needs the mutex gets it by the steps of the holder alone, which then is the
      only call that has moved. */
  lemma {:induction false} HeadingReachesFlush<T(!new)>(s: State<T>, flushSize: int)
    returns (acts: seq<Action<T>>, t: State<T>)
    requires Control(s, flushSize) && s.run.Heading? && !Doomed(s, flushSize)
    ensures HolderThenRun(s, acts)
    ensures |acts| <= 1 + if s.mutex.HeldBy? then StepsLeft(s.pcs[s.mutex.id]) else 0
    ensures Exec(s, acts, flushSize) == Some(t) && Leads(s, t, flushSize)
    ensures t.run == Flushing(s.run.cause)
    ensures |t.pcs| == |s.pcs| && t.elems == s.elems
    ensures forall i :: 0 <= i < |s.pcs| && s.mutex != HeldBy(i) ==> t.pcs[i] == s.pcs[i]
    decreases if s.mutex.HeldBy? then StepsLeft(s.pcs[s.mutex.id]) else 0
  {
    if s.mutex == Free {
      acts, t := [RunStep], Do(s, RunStep, flushSize);
      assert acts[1..] == [];
    } else {
      var a := PushStep(s.mutex.id);
      SpareHolderStep(s, flushSize);
      var rest;
      rest, t := HeadingReachesFlush(Do(s, a, flushSize), flushSize);
      acts := [a] + rest;
      assert acts[1..] == rest;
    }
  }

  /** From select the way is always open: through the channel if it holds a token, else
      through the timer. */
  lemma SelectReachesFlush<T(!new)>(s: State<T>, flushSize: int) returns (t: State<T>)
    requires Inv(s, flushSize) && s.run == Selecting
    ensures Leads(s, t, flushSize) && t.run.Flushing?
  {
    var a := Select(if s.m.token then Token else Timer);
    LeadsSelf(s, flushSize);
    LeadsOn(s, s, a, flushSize);
    InvStep(s, a, flushSize);
    var u := Do(s, a, flushSize);
    var _, v := HeadingReachesFlush(u, flushSize);
    t := v;
    LeadsThrough(s, u, t, flushSize);
  }

  lemma StopReachesFlush<T(!new)>(s: State<T>, flushSize: int) returns (t: State<T>)
    requires Inv(s, flushSize) && s.run == Stopping && !Doomed(s, flushSize)
    ensures Leads(s, t, flushSize) && t.run.Flushing?
  {
    LeadsSelf(s, flushSize);
    LeadsOn(s, s, RunStep, flushSize);
    InvStep(s, RunStep, flushSize);
    var u := Do(s, RunStep, flushSize);
    var _, v := HeadingReachesFlush(u, flushSize);
    t := v;
    LeadsThrough(s, u, t, flushSize);
  }

  lemma {:induction false} FlushReachesFlush<T(!new)>(s: State<T>, flushSize: int) returns (t: State<T>)
    requires Inv(s, flushSize) && FlushAhead(s) && (s.run.Clearing? || s.run.Releasing?)
    ensures Leads(s, t, flushSize) && t.run.Flushing?
    decreases s.run.Clearing?
  {
    LeadsSelf(s, flushSize);
    LeadsOn(s, s, RunStep, flushSize);
    InvStep(s, RunStep, flushSize);
    var u := Do(s, RunStep, flushSize);
    if s.run.Clearing? {
      t := FlushReachesFlush(u, flushSize);
    } else {
      t := SelectReachesFlush(u, flushSize);
    }
    LeadsThrough(s, u, t, flushSize);
  }

  /** Before its last flush, Run can still come to flush exactly when the state is not
      doomed: otherwise no continuation at all leads there. */
  lemma FlushPossibleExactly<T(!new)>(s: State<T>, flushSize: int)
    requires Reachable(s, flushSize) && FlushAhead(s)
    ensures (exists t :: Leads(s, t, flushSize) && t.run.Flushing?) <==> !Doomed(s, flushSize)
  {
    InvReachable(s, flushSize);
    if Doomed(s, flushSize) {
      forall t | Leads(s, t, flushSize) ensures !t.run.Flushing? {
        var acts: seq<Action<T>> :| Exec(s, acts, flushSize) == Some(t);
        DoomedForever(s, acts, flushSize);
      }
    } else {
      var t;
      match s.run {
        case Selecting => t := SelectReachesFlush(s, flushSize);
        case Stopping => t := StopReachesFlush(s, flushSize);
        case Heading(_) =>
          var _, u := HeadingReachesFlush(s, flushSize);
          t := u;
        case Flushing(_) =>
          LeadsSelf(s, flushSize);
          t := s;
        case Clearing(_) => t := FlushReachesFlush(s, flushSize);
        case Releasing(_) => t := FlushReachesFlush(s, flushSize);
      }
      assert Leads(s, t, flushSize) && t.run.Flushing?;
    }
  }

  // ---------------------------------------------------------------- shutdown

  ghost predicate AllAccepted<T>(t: State<T>, ids: seq<nat>) {
    forall i :: i in ids ==> i < |t.pcs| && t.pcs[i] == Accepted
  }

  /** What holds of every state t that follows the store of `shutdown` in state s. */
  ghost predicate SinceStop<T>(s: State<T>, t: State<T>) {
    && t.m.shutdown
    && |s.pcs| <= |t.pcs|
    && s.order <= t.order
    && (forall i :: 0 <= i < |t.pcs| && t.pcs[i].Admitted() ==> i < |s.pcs| && s.pcs[i].Admitted())
    && (t.run in {Clearing(Ctx), Releasing(Ctx), Returned} ==> |s.order| <= |Flatten(t.m.batches)|)
    && (t.run in {Flushing(Ctx), Clearing(Ctx), Releasing(Ctx), Returned} ==> AllAccepted(t, s.order))
  }

  lemma AdmittedStep<T>(t: State<T>, a: Action<T>, flushSize: int)
    requires MutexOk(t) && Enabled(t, a) && t.m.shutdown
    ensures var u := Do(t, a, flushSize);
      && u.m.shutdown && |t.pcs| <= |u.pcs|
      && forall i :: 0 <= i < |u.pcs| && u.pcs[i].Admitted() ==> i < |t.pcs| && t.pcs[i].Admitted()
  {
    match a
    case PushStep(i) => PushFrame(t, i, flushSize);
    case Call(e) =>
    case Cancel =>
    case Select(c) =>
    case RunStep =>
  }

  /** The last flush takes everything that has locked. */
  lemma FinalFlushTakesAll<T>(t: State<T>)
    requires MutexOk(t) && OrderOk(t) && Conserved(t) && t.run.Flushing?
    ensures |Flatten(FlushBuf(t.m).batches)| == |t.order|
  {
    FlattenSnoc(t.m.batches, t.m.buf);
    assert AppendedIds(t) == t.order;
    assert |Flatten(t.m.batches) + t.m.buf| == |Pick(t.elems, t.order)|;
  }

  lemma FinalFlushStep<T>(t: State<T>, a: Action<T>, n: nat, flushSize: int)
    requires MutexOk(t) && OrderOk(t) && Conserved(t) && Enabled(t, a) && n <= |t.order|
    requires t.run in {Clearing(Ctx), Releasing(Ctx), Returned} ==> n <= |Flatten(t.m.batches)|
    ensures var u := Do(t, a, flushSize);
      u.run in {Clearing(Ctx), Releasing(Ctx), Returned} ==> n <= |Flatten(u.m.batches)|
  {
    if t.run == Flushing(Ctx) && a == RunStep {
      FinalFlushTakesAll(t);
    } else {
      QueueStep(t, a, flushSize);
    }
  }

  lemma AllAcceptedStep<T>(t: State<T>, a: Action<T>, ids: seq<nat>, flushSize: int)
    requires Inv(t, flushSize) && Enabled(t, a) && (forall i :: i in ids ==> i in t.order)
    requires t.run in {Flushing(Ctx), Clearing(Ctx), Releasing(Ctx), Returned} ==> AllAccepted(t, ids)
    ensures var u := Do(t, a, flushSize);
      u.run in {Flushing(Ctx), Clearing(Ctx), Releasing(Ctx), Returned} ==> AllAccepted(u, ids)
  {
    if a.PushStep? {
      PushFrame(t, a.id, flushSize);
    } else if a == RunStep && t.run == Heading(Ctx) {
      assert forall i :: i in ids ==> !t.pcs[i].Critical();
    }
  }

  lemma SinceStopStep<T>(s: State<T>, t: State<T>, a: Action<T>, flushSize: int)
    requires Inv(t, flushSize) && SinceStop(s, t) && Enabled(t, a)
    ensures SinceStop(s, Do(t, a, flushSize))
  {
    InvStep(t, a, flushSize);
    AdmittedStep(t, a, flushSize);
    FinalFlushStep(t, a, |s.order|, flushSize);
    AllAcceptedStep(t, a, s.order, flushSize);
  }

  lemma {:induction false} SinceStopExec<T>(s: State<T>, t: State<T>, acts: seq<Action<T>>, flushSize: int)
    requires Inv(t, flushSize) && SinceStop(s, t) && Exec(t, acts, flushSize).Some?
    ensures SinceStop(s, Exec(t, acts, flushSize).value)
    decreases |acts|
  {
    if acts != [] {
      InvStep(t, acts[0], flushSize);
      SinceStopStep(s, t, acts[0], flushSize);
      SinceStopExec(s, Do(t, acts[0], flushSize), acts[1..], flushSize);
    }
  }

  /** In s Run is about to store `shutdown`; the store followed by acts is a run to Run's return. */
  ghost predicate ShutdownRun<T(!new)>(s: State<T>, acts: seq<Action<T>>, flushSize: int) {
    && Reachable(s, flushSize) && |s.pcs| == |s.elems| && s.run == Stopping
    && Exec(s, [RunStep] + acts, flushSize).Some?
    && Exec(s, [RunStep] + acts, flushSize).value.run == Returned
  }

  lemma ShutdownFacts<T(!new)>(s: State<T>, acts: seq<Action<T>>, flushSize: int)
    requires ShutdownRun(s, acts, flushSize)
    ensures var t := Exec(s, [RunStep] + acts, flushSize).value;
      Inv(s, flushSize) && Inv(t, flushSize) && SinceStop(s, t)
  {
    InvReachable(s, flushSize);
    var u := Do(s, RunStep, flushSize);
    InvStep(s, RunStep, flushSize);
    assert ([RunStep] + acts)[1..] == acts;
    SinceStopExec(s, u, acts, flushSize);
    InvExec(u, acts, flushSize);
  }

  /** A call that locked only after everything in s.order had been waiting in s. */
  lemma LateIsWaiting<T>(s: State<T>, t: State<T>, i: nat, k: nat)
    requires OrderOk(s) && OrderOk(t) && SinceStop(s, t)
    requires |s.order| <= k <= |t.order| && i in t.order[k..]
    ensures i < |s.pcs| && s.pcs[i] == Passed
  {
    var j :| k <= j < |t.order| && t.order[j] == i;
    assert i in t.order;
    assert forall h :: 0 <= h < |s.order| ==> s.order[h] == t.order[h] != t.order[j];
  }

  /** Once Run has returned, the flushed batches hold a prefix of the elements in lock order,
      everything that had locked before the store among them; what is left in the buffer
      belongs to calls that, at the store, had passed the shutdown check and were waiting
      for the mutex. */
  lemma ShutdownLeftovers<T(!new)>(s: State<T>, acts: seq<Action<T>>, flushSize: int)
    requires ShutdownRun(s, acts, flushSize)
    ensures var t := Exec(s, [RunStep] + acts, flushSize).value; var k := |Flatten(t.m.batches)|;
      && OrderOk(t) && Conserved(t)
      && |s.order| <= k <= |AppendedIds(t)|
      && Flatten(t.m.batches) == Pick(t.elems, AppendedIds(t))[..k]
      && t.m.buf == Pick(t.elems, AppendedIds(t))[k..]
      && forall i :: i in AppendedIds(t)[k..] ==> i < |s.pcs| && s.pcs[i] == Passed
  {
    ShutdownFacts(s, acts, flushSize);
    var t := Exec(s, [RunStep] + acts, flushSize).value;
    var k := |Flatten(t.m.batches)|;
    assert Flatten(t.m.batches) + t.m.buf == Pick(t.elems, AppendedIds(t));
    forall i | i in AppendedIds(t)[k..] ensures i < |s.pcs| && s.pcs[i] == Passed {
      LateIsWaiting(s, t, i, k);
    }
  }

  lemma NoLateLock<T>(s: State<T>, t: State<T>)
    requires OrderOk(s) && OrderOk(t) && SinceStop(s, t) && t.run == Returned
    requires forall i :: 0 <= i < |s.pcs| ==> s.pcs[i] != Passed
    ensures t.order == s.order && AppendedIds(t) == t.order
    ensures forall i :: 0 <= i < |t.pcs| ==> (t.pcs[i] == Accepted <==> i in t.order)
  {
    if |t.order| > |s.order| {
      LateIsWaiting(s, t, t.order[|t.order| - 1], |s.order|);
    }
  }

  /** With no call waiting for the mutex at the store, Run's return leaves nothing behind:
      the flushed batches are exactly the elements of the calls that return nil, in lock
      order. */
  lemma CleanShutdown<T(!new)>(s: State<T>, acts: seq<Action<T>>, flushSize: int)
    requires ShutdownRun(s, acts, flushSize)
    requires forall i :: 0 <= i < |s.pcs| ==> s.pcs[i] != Passed
    ensures var t := Exec(s, [RunStep] + acts, flushSize).value;
      && OrderOk(t) && t.m.buf == []
      && Flatten(t.m.batches) == Pick(t.elems, t.order)
      && forall i :: 0 <= i < |t.pcs| ==> (t.pcs[i] == Accepted <==> i in t.order)
  {
    ShutdownLeftovers(s, acts, flushSize);
    ShutdownFacts(s, acts, flushSize);
    NoLateLock(s, Exec(s, [RunStep] + acts, flushSize).value);
  }

  lemma ShutdownRunOf<T(!new)>(s: State<T>, t: State<T>, flushSize: int) returns (acts: seq<Action<T>>)
    requires Reachable(s, flushSize) && |s.pcs| == |s.elems| && s.run == Stopping
    requires Leads(Do(s, RunStep, flushSize), t, flushSize) && t.run == Returned
    ensures ShutdownRun(s, acts, flushSize) && Exec(s, [RunStep] + acts, flushSize) == Some(t)
  {
    acts :| Exec(Do(s, RunStep, flushSize), acts, flushSize) == Some(t);
    assert ([RunStep] + acts)[1..] == acts;
  }

  /** The last flush, then a waiting call's lock and append. */
  lemma FlushThenPush<T(!new)>(s: State<T>, i: nat, flushSize: int) returns (t: State<T>)
    requires |s.pcs| == |s.elems| && s.run == Flushing(Ctx) && i < |s.pcs| && s.pcs[i] == Passed
    ensures Leads(s, t, flushSize) && t.run == Returned && t.m.buf == [s.elems[i]]
  {
    var u := FinishFlush(s, flushSize);
    LeadsOn(s, u, PushStep(i), flushSize);
    var v := Do(u, PushStep(i), flushSize);
    LeadsOn(s, v, PushStep(i), flushSize);
    t := Do(v, PushStep(i), flushSize);
  }

  /** The condition is needed: a call waiting for the mutex at the store can let the holder,
      and then the last flush, go first, and leave its element in the buffer for good. */
  lemma LeftoverPossible<T(!new)>(s: State<T>, i: nat, flushSize: int) returns (acts: seq<Action<T>>)
    requires Reachable(s, flushSize) && s.run == Stopping && !Doomed(s, flushSize)
    requires i < |s.pcs| && s.pcs[i] == Passed
    ensures |s.pcs| == |s.elems| && ShutdownRun(s, acts, flushSize)
    ensures Exec(s, [RunStep] + acts, flushSize).value.m.buf == [s.elems[i]]
  {
    InvReachable(s, flushSize);
    ControlStep(s, RunStep, flushSize);
    var u := Do(s, RunStep, flushSize);
    var _, v := HeadingReachesFlush(u, flushSize);
    var t := FlushThenPush(v, i, flushSize);
    LeadsThrough(u, v, t, flushSize);
    acts := ShutdownRunOf(s, t, flushSize);
  }

  ghost predicate LeavesRest<T(!new)>(s: State<T>, acts: seq<Action<T>>, flushSize: int) {
    ShutdownRun(s, acts, flushSize) && Exec(s, [RunStep] + acts, flushSize).value.m.buf != []
  }

  /** Run's return can leave elements in the buffer exactly when, at the store of `shutdown`,
      some call is waiting for the mutex and the last flush is still possible. */
  lemma LeftoverExactly<T(!new)>(s: State<T>, flushSize: int)
    requires Reachable(s, flushSize) && s.run == Stopping
    ensures (exists acts :: LeavesRest(s, acts, flushSize)) <==>
      (exists i :: 0 <= i < |s.pcs| && s.pcs[i] == Passed) && !Doomed(s, flushSize)
  {
    InvReachable(s, flushSize);
    forall acts | LeavesRest(s, acts, flushSize)
      ensures (exists i :: 0 <= i < |s.pcs| && s.pcs[i] == Passed) && !Doomed(s, flushSize)
    {
      if Doomed(s, flushSize) {
        DoomedForever(s, [RunStep] + acts, flushSize);
      }
      if forall i :: 0 <= i < |s.pcs| ==> s.pcs[i] != Passed {
        CleanShutdown(s, acts, flushSize);
      }
    }
    if !Doomed(s, flushSize) {
      if i :| 0 <= i < |s.pcs| && s.pcs[i] == Passed {
        var acts := LeftoverPossible(s, i, flushSize);
        assert LeavesRest(s, acts, flushSize);
      }
    }
  }
}
