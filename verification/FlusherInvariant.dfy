/** The invariants of the queue protocol, and that every action keeps them. */
module FlusherInvariant {
  import opened Sequences
  import opened FlusherProtocol

  /** The Push call holding the mutex, if any, is at pc. */
  predicate HolderAt<T>(s: State<T>, pc: PushPc) {
    s.mutex.HeldBy? && s.mutex.id < |s.pcs| && s.pcs[s.mutex.id] == pc
  }

  /** The mutex is held by exactly the thread that is inside its critical section. */
  ghost predicate MutexOk<T>(s: State<T>) {
    && |s.pcs| == |s.elems|
    && (forall i :: 0 <= i < |s.pcs| ==> (s.pcs[i].Critical() <==> s.mutex == HeldBy(i)))
    && (s.mutex.HeldBy? ==> s.mutex.id < |s.pcs|)
    && (s.run.Critical() <==> s.mutex == HeldByRun)
  }

  /** flushNeed against the length of the buffer, as seen by whoever holds the mutex. */
  ghost predicate FlagOk<T>(s: State<T>, flushSize: int) {
    var full := |s.m.buf| >= Threshold(flushSize);
    match s.mutex
    case Free => s.m.flushNeed <==> full
    case HeldByRun =>
      (s.run.Flushing? ==> (s.m.flushNeed <==> full)) &&
      (s.run.Clearing? ==> s.m.buf == []) &&
      (s.run.Releasing? ==> s.m.buf == [] && !s.m.flushNeed)
    case HeldBy(i) =>
      i < |s.pcs| &&
      (match s.pcs[i]
       case Appended => |s.m.buf| >= 1 && (s.m.flushNeed <==> |s.m.buf| > Threshold(flushSize))
       case Sending => |s.m.buf| == Threshold(flushSize) && !s.m.flushNeed
       case Sent => |s.m.buf| == Threshold(flushSize) && !s.m.flushNeed
       case _ => s.m.flushNeed <==> full)
  }

  /** A raised flag, or one about to be raised, is backed by a token, or Run has received it
      and is on its way through doFlush. */
  ghost predicate Woken<T>(s: State<T>) {
    s.m.flushNeed || HolderAt(s, Sent) ==>
      s.m.token || s.run == Heading(Token) || s.run == Flushing(Token) || s.run == Clearing(Token)
  }

  /** After Run received from the channel, a token can only be there again together with
      the flag. */
  ghost predicate TokenPathOk<T>(s: State<T>) {
    s.run == Heading(Token) && s.m.token ==> s.m.flushNeed || HolderAt(s, Sent)
  }

  ghost predicate StopOk<T>(s: State<T>) {
    s.m.shutdown <==>
      s.run in {Heading(Ctx), Flushing(Ctx), Clearing(Ctx), Releasing(Ctx), Returned}
  }

  ghost predicate Control<T>(s: State<T>, flushSize: int) {
    MutexOk(s) && FlagOk(s, flushSize) && Woken(s) && TokenPathOk(s) && StopOk(s)
  }

  /** The calls whose element is in the queue, in lock order: all that acquired the mutex
      but the one that has not appended yet. */
  function AppendedIds<T>(s: State<T>): seq<nat> {
    if HolderAt(s, Entered) && |s.order| > 0 then s.order[..|s.order| - 1] else s.order
  }

  ghost predicate OrderOk<T>(s: State<T>) {
    && |s.pcs| == |s.elems|
    && Distinct(s.order)
    && (forall i :: i in s.order ==> i < |s.pcs|)
    && (forall i :: 0 <= i < |s.pcs| ==>
          (i in s.order <==> s.pcs[i].Admitted() && s.pcs[i] != Passed))
    && (HolderAt(s, Entered) ==> |s.order| > 0 && s.order[|s.order| - 1] == s.mutex.id)
  }

  lemma AppendedInOrder<T>(s: State<T>)
    requires OrderOk(s)
    ensures forall i :: i in AppendedIds(s) ==> i in s.order && i < |s.elems|
  {
  }

  /** Everything appended so far is in the flushed batches or still in the buffer, once
      each and in lock order; `size` counts it; no flushed batch is empty. */
  ghost predicate Conserved<T>(s: State<T>)
    requires OrderOk(s)
  {
    && (forall i :: i in AppendedIds(s) ==> i in s.order)
    && Flatten(s.m.batches) + s.m.buf == Pick(s.elems, AppendedIds(s))
    && s.m.size == |AppendedIds(s)|
    && (forall b :: b in s.m.batches ==> |b| > 0)
  }

  ghost predicate Inv<T>(s: State<T>, flushSize: int) {
    Control(s, flushSize) && OrderOk(s) && Conserved(s)
  }

  /** Only the stepping call moves, and when it is in its critical section it is the holder. */
  lemma PushFrame<T>(s: State<T>, i: nat, flushSize: int)
    requires MutexOk(s) && Enabled(s, PushStep(i))
    ensures var t := Do(s, PushStep(i), flushSize);
      && |t.pcs| == |s.pcs| && t.elems == s.elems && t.run == s.run
      && (forall j :: 0 <= j < |s.pcs| && j != i ==> t.pcs[j] == s.pcs[j])
      && (s.pcs[i].Critical() ==> s.mutex == HeldBy(i))
      && (s.pcs[i] == Passed ==> s.mutex == Free)
      && (t.pcs[i].Critical() <==> t.mutex == HeldBy(i))
      && (!s.pcs[i].Critical() && s.pcs[i] != Passed ==> t.mutex == s.mutex)
      && (s.pcs[i] == Leaving ==> t.mutex == Free)
  {
  }

  lemma MutexPushStep<T>(s: State<T>, i: nat, flushSize: int)
    requires MutexOk(s) && Enabled(s, PushStep(i))
    ensures MutexOk(Do(s, PushStep(i), flushSize))
  {
    PushFrame(s, i, flushSize);
    var t := Do(s, PushStep(i), flushSize);
    forall j | 0 <= j < |t.pcs| ensures t.pcs[j].Critical() <==> t.mutex == HeldBy(j) {
      if j != i {
        assert t.pcs[j] == s.pcs[j];
      }
    }
  }

  lemma MutexStep<T>(s: State<T>, a: Action<T>, flushSize: int)
    requires MutexOk(s) && Enabled(s, a)
    ensures MutexOk(Do(s, a, flushSize))
  {
    match a
    case PushStep(i) => MutexPushStep(s, i, flushSize);
    case Call(e) =>
    case Cancel =>
    case Select(c) =>
    case RunStep =>
  }

  /** An action of a call outside its critical section leaves the flags' invariants alone. */
  lemma FlagsPushStep<T>(s: State<T>, i: nat, flushSize: int)
    requires Control(s, flushSize) && Enabled(s, PushStep(i))
    ensures var t := Do(s, PushStep(i), flushSize); FlagOk(t, flushSize) && Woken(t) && TokenPathOk(t) && StopOk(t)
  {
    PushFrame(s, i, flushSize);
    var t := Do(s, PushStep(i), flushSize);
    match s.pcs[i]
    case Called =>
      if s.mutex.HeldBy? {
        assert t.pcs[s.mutex.id] == s.pcs[s.mutex.id];
      }
    case Passed =>
    case Entered =>
    case Appended =>
    case Sending =>
    case Sent =>
    case Leaving =>
  }

  lemma FlagsStep<T>(s: State<T>, a: Action<T>, flushSize: int)
    requires Control(s, flushSize) && Enabled(s, a)
    ensures var t := Do(s, a, flushSize); FlagOk(t, flushSize) && Woken(t) && TokenPathOk(t) && StopOk(t)
  {
    match a
    case PushStep(i) => FlagsPushStep(s, i, flushSize);
    case Call(e) =>
      if s.mutex.HeldBy? {
        assert Do(s, a, flushSize).pcs[s.mutex.id] == s.pcs[s.mutex.id];
      }
    case Cancel =>
    case Select(c) =>
    case RunStep =>
  }

  lemma ControlStep<T>(s: State<T>, a: Action<T>, flushSize: int)
    requires Control(s, flushSize) && Enabled(s, a)
    ensures Control(Do(s, a, flushSize), flushSize)
  {
    MutexStep(s, a, flushSize);
    FlagsStep(s, a, flushSize);
  }

  lemma OrderPushStep<T>(s: State<T>, i: nat, flushSize: int)
    requires MutexOk(s) && OrderOk(s) && Enabled(s, PushStep(i))
    ensures var t := Do(s, PushStep(i), flushSize); OrderOk(t) && s.order <= t.order && s.elems <= t.elems
  {
    PushFrame(s, i, flushSize);
    var t := Do(s, PushStep(i), flushSize);
    assert t.order == if s.pcs[i] == Passed then s.order + [i] else s.order;
    forall j | 0 <= j < |t.pcs| ensures j in t.order <==> t.pcs[j].Admitted() && t.pcs[j] != Passed {
      assert j in t.order <==> j in s.order || (s.pcs[i] == Passed && j == i);
      if j != i {
        assert t.pcs[j] == s.pcs[j];
      }
    }
    if HolderAt(t, Entered) && t.mutex.id != i {
      assert t.mutex == s.mutex && HolderAt(s, Entered);
    }
  }

  lemma OrderStep<T>(s: State<T>, a: Action<T>, flushSize: int)
    requires MutexOk(s) && OrderOk(s) && Enabled(s, a)
    ensures OrderOk(Do(s, a, flushSize))
    ensures s.order <= Do(s, a, flushSize).order && s.elems <= Do(s, a, flushSize).elems
  {
    match a
    case PushStep(i) => OrderPushStep(s, i, flushSize);
    case Call(e) =>
      assert |s.pcs| !in s.order;
    case Cancel =>
    case Select(c) =>
    case RunStep =>
  }

  /** Appending is the only action that changes what has been put in the queue; flushing
      only moves it. */
  lemma AppendedPushStep<T>(s: State<T>, i: nat, flushSize: int)
    requires MutexOk(s) && OrderOk(s) && Enabled(s, PushStep(i))
    ensures AppendedIds(Do(s, PushStep(i), flushSize)) ==
      AppendedIds(s) + if s.pcs[i] == Entered then [i] else []
  {
    var t := Do(s, PushStep(i), flushSize);
    PushFrame(s, i, flushSize);
    match s.pcs[i]
    case Entered =>
      assert s.order == s.order[..|s.order| - 1] + [i];
    case Passed =>
      assert (s.order + [i])[..|s.order|] == s.order;
    case Called =>
      assert HolderAt(s, Entered) <==> HolderAt(t, Entered);
    case _ =>
  }

  lemma AppendedStep<T>(s: State<T>, a: Action<T>, flushSize: int)
    requires MutexOk(s) && OrderOk(s) && Enabled(s, a)
    ensures AppendedIds(Do(s, a, flushSize)) ==
      AppendedIds(s) + if a.PushStep? && s.pcs[a.id] == Entered then [a.id] else []
  {
    match a
    case PushStep(i) => AppendedPushStep(s, i, flushSize);
    case Call(e) =>
      if s.mutex.HeldBy? {
        assert Do(s, a, flushSize).pcs[s.mutex.id] == s.pcs[s.mutex.id];
      }
    case Cancel =>
    case Select(c) =>
    case RunStep =>
  }

  /** What one action adds to the queue: nothing, or the element being appended. */
  function AddedElems<T>(s: State<T>, a: Action<T>): seq<T>
    requires |s.pcs| == |s.elems| && Enabled(s, a)
  {
    if a.PushStep? && s.pcs[a.id] == Entered then [s.elems[a.id]] else []
  }

  /** Which action changes which part of the queue. */
  lemma QueueStep<T>(s: State<T>, a: Action<T>, flushSize: int)
    requires |s.pcs| == |s.elems| && Enabled(s, a)
    ensures var t := Do(s, a, flushSize);
      && t.m.size == s.m.size + |AddedElems(s, a)|
      && if a == RunStep && s.run.Flushing? && s.m.buf != []
         then t.m.batches == s.m.batches + [s.m.buf] && t.m.buf == []
         else t.m.batches == s.m.batches && t.m.buf == s.m.buf + AddedElems(s, a)
  {
    match a
    case PushStep(i) =>
      match s.pcs[i] {
        case Entered =>
        case _ =>
      }
    case Call(e) =>
    case Cancel =>
    case Select(c) =>
    case RunStep =>
  }

  lemma ContentsStep<T>(s: State<T>, a: Action<T>, flushSize: int)
    requires MutexOk(s) && Enabled(s, a)
    requires forall b :: b in s.m.batches ==> |b| > 0
    ensures var t := Do(s, a, flushSize);
      && Flatten(t.m.batches) + t.m.buf == Flatten(s.m.batches) + s.m.buf + AddedElems(s, a)
      && t.m.size == s.m.size + |AddedElems(s, a)|
      && (forall b :: b in t.m.batches ==> |b| > 0)
  {
    FlattenSnoc(s.m.batches, s.m.buf);
    QueueStep(s, a, flushSize);
  }

  lemma ConservedKeep<T>(s: State<T>, t: State<T>)
    requires OrderOk(s) && Conserved(s) && OrderOk(t) && s.elems <= t.elems
    requires AppendedIds(t) == AppendedIds(s) && t.m.size == s.m.size
    requires Flatten(t.m.batches) + t.m.buf == Flatten(s.m.batches) + s.m.buf
    requires forall b :: b in t.m.batches ==> |b| > 0
    ensures Conserved(t)
  {
    AppendedInOrder(s);
    AppendedInOrder(t);
    PickExtend(s.elems, t.elems, AppendedIds(s));
  }

  lemma ConservedAppend<T>(s: State<T>, t: State<T>, i: nat)
    requires OrderOk(s) && Conserved(s) && OrderOk(t) && s.elems == t.elems && i < |s.elems|
    requires AppendedIds(t) == AppendedIds(s) + [i] && t.m.size == s.m.size + 1
    requires Flatten(t.m.batches) + t.m.buf == Flatten(s.m.batches) + s.m.buf + [s.elems[i]]
    requires forall b :: b in t.m.batches ==> |b| > 0
    ensures Conserved(t)
  {
    AppendedInOrder(s);
    AppendedInOrder(t);
    PickConcat(s.elems, AppendedIds(s), [i]);
    assert Pick(s.elems, [i]) == [s.elems[i]];
  }

  lemma ConservedStep<T>(s: State<T>, a: Action<T>, flushSize: int)
    requires MutexOk(s) && OrderOk(s) && Conserved(s) && Enabled(s, a)
    requires OrderOk(Do(s, a, flushSize)) && s.elems <= Do(s, a, flushSize).elems
    ensures Conserved(Do(s, a, flushSize))
  {
    AppendedStep(s, a, flushSize);
    ContentsStep(s, a, flushSize);
    if a.PushStep? && s.pcs[a.id] == Entered {
      ConservedAppend(s, Do(s, a, flushSize), a.id);
    } else {
      ConservedKeep(s, Do(s, a, flushSize));
    }
  }

  lemma InvStep<T>(s: State<T>, a: Action<T>, flushSize: int)
    requires Inv(s, flushSize) && Enabled(s, a)
    ensures Inv(Do(s, a, flushSize), flushSize)
    ensures s.order <= Do(s, a, flushSize).order && s.elems <= Do(s, a, flushSize).elems
  {
    ControlStep(s, a, flushSize);
    OrderStep(s, a, flushSize);
    ConservedStep(s, a, flushSize);
  }

  lemma {:induction false} InvExec<T>(s: State<T>, acts: seq<Action<T>>, flushSize: int)
    requires Inv(s, flushSize) && Exec(s, acts, flushSize).Some?
    ensures Inv(Exec(s, acts, flushSize).value, flushSize)
    decreases |acts|
  {
    if acts != [] {
      InvStep(s, acts[0], flushSize);
      InvExec(Do(s, acts[0], flushSize), acts[1..], flushSize);
    }
  }

  lemma InvReachable<T(!new)>(s: State<T>, flushSize: int)
    requires Reachable(s, flushSize)
    ensures Inv(s, flushSize)
  {
    var acts: seq<Action<T>> :| Exec(Init(), acts, flushSize) == Some(s);
    assert Inv(Init<T>(), flushSize);
    InvExec(Init<T>(), acts, flushSize);
  }
}
