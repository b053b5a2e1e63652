/** From which states the queue can still wedge, decided exactly. */
module FlusherWedges {
  import opened Sequences
  import opened FlusherProtocol
  import opened FlusherInvariant
  import opened FlusherTheorems

  /** The calls waiting for the mutex. */
  function Waiting<T>(s: State<T>): set<nat> {
    set i: nat | i < |s.pcs| && s.pcs[i] == Passed
  }

  /** The elements that are in the buffer or can still come to it once `shutdown` is stored. */
  function Supply<T>(s: State<T>): nat {
    |s.m.buf| + |Waiting(s)| + if HolderAt(s, Entered) then 1 else 0
  }

  /** The flag is up, or the holder of the mutex is about to raise it. */
  predicate Raised<T>(s: State<T>) {
    s.m.flushNeed || HolderAt(s, Sent)
  }

  /** Enough can still be pushed to block a send.  Before the store of `shutdown` that is
      always so.  Afterwards the calls waiting for the mutex are the only ones to come: they
      have to fill the buffer over a token that a flush leaves behind or has left behind, and
      the token has to be sent first if there is none. */
  ghost predicate CanWedge<T>(s: State<T>, flushSize: int) {
    var full := Threshold(flushSize);
    !s.m.shutdown ||
    match s.run
    case Heading(_) =>
      if !s.m.token then Supply(s) >= 2 * full
      else if Raised(s) then |Waiting(s)| >= full
      else Supply(s) >= full
    case Flushing(_) => s.m.token && |Waiting(s)| >= full
    case Clearing(_) => s.m.token && |Waiting(s)| >= full
    case _ => s.m.token && !Raised(s) && Supply(s) >= full
  }

  // ---------------------------------------------------------------- what a step does to the supply

  lemma WaitingLeave<T>(s: State<T>, t: State<T>, i: nat)
    requires i < |s.pcs| == |t.pcs| && s.pcs[i] == Passed && t.pcs[i] != Passed
    requires forall j :: 0 <= j < |s.pcs| && j != i ==> t.pcs[j] == s.pcs[j]
    ensures |Waiting(t)| == |Waiting(s)| - 1
  {
    assert Waiting(t) == Waiting(s) - {i};
    assert i in Waiting(s);
  }

  lemma WaitingSame<T>(s: State<T>, t: State<T>)
    requires forall j :: 0 <= j < |s.pcs| || 0 <= j < |t.pcs| ==>
      ((j < |s.pcs| && s.pcs[j] == Passed) <==> (j < |t.pcs| && t.pcs[j] == Passed))
    ensures Waiting(t) == Waiting(s)
  {
  }

  /** Once `shutdown` is stored, a step of a call neither adds to the supply nor takes from it. */
  lemma SupplyPushStep<T>(s: State<T>, i: nat, flushSize: int)
    requires MutexOk(s) && s.m.shutdown && Enabled(s, PushStep(i))
    ensures Supply(Do(s, PushStep(i), flushSize)) == Supply(s)
    ensures |Waiting(Do(s, PushStep(i), flushSize))| == |Waiting(s)| - if s.pcs[i] == Passed then 1 else 0
  {
    var t := Do(s, PushStep(i), flushSize);
    PushFrame(s, i, flushSize);
    if s.pcs[i] == Passed {
      WaitingLeave(s, t, i);
    } else {
      WaitingSame(s, t);
      if s.mutex.HeldBy? && s.mutex.id != i {
        assert t.pcs[s.mutex.id] == s.pcs[s.mutex.id];
      }
    }
  }

  /** What it does to token and flag. */
  lemma TokenPushStep<T>(s: State<T>, i: nat, flushSize: int)
    requires Control(s, flushSize) && Enabled(s, PushStep(i))
    ensures var t := Do(s, PushStep(i), flushSize);
      && t.run == s.run && t.m.shutdown == s.m.shutdown
      && t.m.token == (s.m.token || s.pcs[i] == Sending)
      && (Raised(t) <==> Raised(s) || s.pcs[i] == Sending)
  {
    var t := Do(s, PushStep(i), flushSize);
    PushFrame(s, i, flushSize);
    if s.mutex.HeldBy? && s.mutex.id != i {
      assert t.pcs[s.mutex.id] == s.pcs[s.mutex.id];
    }
    match s.pcs[i]
    case Sent =>
    case _ =>
  }

  // ---------------------------------------------------------------- no wedge without

  lemma WedgedCan<T>(s: State<T>, flushSize: int)
    requires Control(s, flushSize) && Wedged(s)
    ensures CanWedge(s, flushSize)
  {
  }

  lemma BackPushStep<T>(s: State<T>, i: nat, flushSize: int)
    requires Control(s, flushSize) && s.m.shutdown && Enabled(s, PushStep(i))
    requires CanWedge(Do(s, PushStep(i), flushSize), flushSize)
    ensures CanWedge(s, flushSize)
  {
    SupplyPushStep(s, i, flushSize);
    TokenPushStep(s, i, flushSize);
    PushFrame(s, i, flushSize);
    if s.pcs[i] == Sending {
      assert HolderAt(s, Sending);
    }
  }

  lemma BackStep<T>(s: State<T>, a: Action<T>, flushSize: int)
    requires Control(s, flushSize) && Enabled(s, a) && CanWedge(Do(s, a, flushSize), flushSize)
    ensures CanWedge(s, flushSize)
  {
    if s.m.shutdown {
      match a
      case PushStep(i) => BackPushStep(s, i, flushSize);
      case Call(e) =>
        var t := Do(s, a, flushSize);
        WaitingSame(s, t);
        if s.mutex.HeldBy? {
          assert t.pcs[s.mutex.id] == s.pcs[s.mutex.id];
        }
      case Cancel =>
        WaitingSame(s, Do(s, a, flushSize));
      case Select(c) =>
      case RunStep =>
        WaitingSame(s, Do(s, a, flushSize));
    }
  }

  lemma {:induction false} BackExec<T>(s: State<T>, acts: seq<Action<T>>, flushSize: int)
    requires Control(s, flushSize) && Exec(s, acts, flushSize).Some?
    requires Wedged(Exec(s, acts, flushSize).value)
    ensures CanWedge(s, flushSize)
    decreases |acts|
  {
    if acts == [] {
      WedgedCan(s, flushSize);
    } else {
      ControlStep(s, acts[0], flushSize);
      BackExec(Do(s, acts[0], flushSize), acts[1..], flushSize);
      BackStep(s, acts[0], flushSize);
    }
  }

  // ---------------------------------------------------------------- after the store of shutdown

  function RunLeft(run: RunPc): nat {
    match run
    case Heading(_) => 4
    case Flushing(_) => 3
    case Clearing(_) => 2
    case Releasing(_) => 1
    case _ => 0
  }

  ghost function HolderLeft<T>(s: State<T>): nat {
    if s.mutex.HeldBy? && s.mutex.id < |s.pcs| then StepsLeft(s.pcs[s.mutex.id]) else 0
  }

  /** t is nearer to the wedge than s. */
  ghost predicate Nearer<T>(s: State<T>, t: State<T>) {
    || RunLeft(t.run) < RunLeft(s.run)
    || (t.run == s.run && |Waiting(t)| < |Waiting(s)|)
    || (t.run == s.run && |Waiting(t)| == |Waiting(s)| && HolderLeft(t) < HolderLeft(s))
  }

  lemma HolderNext<T>(s: State<T>, flushSize: int)
    requires Control(s, flushSize) && s.m.shutdown && CanWedge(s, flushSize) && !Wedged(s) && s.mutex.HeldBy?
    ensures Enabled(s, PushStep(s.mutex.id))
    ensures var t := Do(s, PushStep(s.mutex.id), flushSize); Nearer(s, t) && CanWedge(t, flushSize)
  {
    var i := s.mutex.id;
    assert s.pcs[i].Critical();
    assert HolderAt(s, s.pcs[i]);
    SupplyPushStep(s, i, flushSize);
    TokenPushStep(s, i, flushSize);
    HolderMoves(s, flushSize);
  }

  lemma WaitingNext<T>(s: State<T>, i: nat, flushSize: int)
    requires Control(s, flushSize) && s.m.shutdown && CanWedge(s, flushSize) && s.mutex == Free
    requires i in Waiting(s) && !(s.run.Heading? && s.m.token && Raised(s))
    ensures Enabled(s, PushStep(i))
    ensures var t := Do(s, PushStep(i), flushSize); Nearer(s, t) && CanWedge(t, flushSize)
  {
    SupplyPushStep(s, i, flushSize);
    TokenPushStep(s, i, flushSize);
  }

  /** The step that brings the wedge nearer: the holder's if a call has the mutex; Run's if it
      has it, or if it has been asked for a flush; else that of any waiting call. */
  lemma NextStep<T>(s: State<T>, flushSize: int) returns (a: Action<T>)
    requires Control(s, flushSize) && s.m.shutdown && CanWedge(s, flushSize) && !Wedged(s)
    ensures Enabled(s, a) && Nearer(s, Do(s, a, flushSize))
    ensures CanWedge(Do(s, a, flushSize), flushSize)
  {
    if s.mutex.HeldBy? {
      a := PushStep(s.mutex.id);
      HolderNext(s, flushSize);
    } else if s.mutex == HeldByRun || (s.run.Heading? && s.m.token && Raised(s)) {
      a := RunStep;
      WaitingSame(s, Do(s, a, flushSize));
    } else {
      assert |Waiting(s)| > 0;
      var i :| i in Waiting(s);
      a := PushStep(i);
      WaitingNext(s, i, flushSize);
    }
  }

  lemma {:induction false} WedgeAfterStop<T(!new)>(s: State<T>, flushSize: int) returns (t: State<T>)
    requires Control(s, flushSize) && s.m.shutdown && CanWedge(s, flushSize)
    ensures Leads(s, t, flushSize) && Wedged(t)
    decreases RunLeft(s.run), |Waiting(s)|, HolderLeft(s)
  {
    LeadsSelf(s, flushSize);
    t := s;
    if !Wedged(s) {
      var a := NextStep(s, flushSize);
      ControlStep(s, a, flushSize);
      LeadsOn(s, s, a, flushSize);
      var u := Do(s, a, flushSize);
      t := WedgeAfterStop(u, flushSize);
      LeadsThrough(s, u, t, flushSize);
    }
  }

  // ---------------------------------------------------------------- before it

  lemma LeadsKeepsInv<T(!new)>(s: State<T>, t: State<T>, flushSize: int)
    requires Inv(s, flushSize) && Leads(s, t, flushSize)
    ensures Inv(t, flushSize)
  {
    var acts: seq<Action<T>> :| Exec(s, acts, flushSize) == Some(t);
    InvExec(s, acts, flushSize);
  }

  /** Fresh calls pass the check of `shutdown` and wait. */
  lemma {:induction false} FreshCallsWait<T(!new)>(s: State<T>, e: T, n: nat, flushSize: int) returns (t: State<T>)
    requires |s.pcs| == |s.elems| && !s.m.shutdown
    ensures |t.pcs| == |t.elems| && Leads(s, t, flushSize)
    ensures t.m == s.m && t.run == s.run && |Waiting(t)| == |Waiting(s)| + n
    decreases n
  {
    LeadsSelf(s, flushSize);
    t := s;
    if n > 0 {
      var u := Do(s, Call(e), flushSize);
      LeadsOn(s, s, Call(e), flushSize);
      LeadsOn(s, u, PushStep(|s.pcs|), flushSize);
      var v := Do(u, PushStep(|s.pcs|), flushSize);
      assert Waiting(v) == Waiting(s) + {|s.pcs|};
      t := FreshCallsWait(v, e, n - 1, flushSize);
      LeadsThrough(s, v, t, flushSize);
    }
  }

  /** Run alone finishes a doFlush that it has the mutex for. */
  lemma {:induction false} RunToSelect<T(!new)>(s: State<T>, flushSize: int) returns (t: State<T>)
    requires |s.pcs| == |s.elems| && s.run.Critical() && s.run.cause != Ctx
    ensures Leads(s, t, flushSize) && t.run == Selecting && t.pcs == s.pcs && t.elems == s.elems
    ensures t.m.shutdown == s.m.shutdown
    decreases RunLeft(s.run)
  {
    LeadsSelf(s, flushSize);
    LeadsOn(s, s, RunStep, flushSize);
    t := Do(s, RunStep, flushSize);
    if t.run != Selecting {
      var u := t;
      t := RunToSelect(u, flushSize);
      LeadsThrough(s, u, t, flushSize);
    }
  }

  /** From select the context branch leads to the store of `shutdown`. */
  lemma SelectToStop<T(!new)>(s: State<T>, flushSize: int) returns (t: State<T>)
    requires |s.pcs| == |s.elems| && s.run == Selecting
    ensures Leads(s, t, flushSize) && t.run == Heading(Ctx) && t.m.shutdown && t.pcs == s.pcs
  {
    LeadsSelf(s, flushSize);
    LeadsOn(s, s, Cancel, flushSize);
    var u := Do(s, Cancel, flushSize);
    LeadsOn(s, u, Select(Ctx), flushSize);
    var v := Do(u, Select(Ctx), flushSize);
    LeadsOn(s, v, RunStep, flushSize);
    t := Do(v, RunStep, flushSize);
  }

  /** A Run that needs the mutex gets through its doFlush, and the waiting calls wait on. */
  lemma HeadingToSelect<T(!new)>(s: State<T>, flushSize: int) returns (t: State<T>)
    requires Control(s, flushSize) && s.run.Heading? && s.run.cause != Ctx && !Doomed(s, flushSize)
    ensures |t.pcs| == |t.elems| && Leads(s, t, flushSize) && t.run == Selecting && Waiting(s) <= Waiting(t)
  {
    var _, u := HeadingReachesFlush(s, flushSize);
    t := RunToSelect(u, flushSize);
    LeadsThrough(s, u, t, flushSize);
    forall i | i in Waiting(s) ensures i in Waiting(t) {
      assert s.mutex != HeldBy(i);
    }
  }

  lemma ReachStop<T(!new)>(s: State<T>, flushSize: int) returns (t: State<T>)
    requires Control(s, flushSize) && !s.m.shutdown && (s.run.Heading? ==> !Doomed(s, flushSize))
    ensures Leads(s, t, flushSize) && t.run == Heading(Ctx) && t.m.shutdown && Waiting(s) <= Waiting(t)
  {
    LeadsSelf(s, flushSize);
    if s.run == Stopping {
      LeadsOn(s, s, RunStep, flushSize);
      t := Do(s, RunStep, flushSize);
      WaitingSame(s, t);
    } else {
      var u := s;
      if s.run.Heading? {
        u := HeadingToSelect(s, flushSize);
      } else if s.run.Critical() {
        u := RunToSelect(s, flushSize);
        WaitingSame(s, u);
      }
      t := SelectToStop(u, flushSize);
      WaitingSame(u, t);
      LeadsThrough(s, u, t, flushSize);
    }
  }

  /** A doomed state becomes a wedge by the steps of the holder. */
  lemma {:induction false} DoomedWedges<T(!new)>(s: State<T>, flushSize: int) returns (t: State<T>)
    requires Control(s, flushSize) && Doomed(s, flushSize) && s.run.Heading?
    ensures Leads(s, t, flushSize) && Wedged(t)
    decreases HolderLeft(s)
  {
    LeadsSelf(s, flushSize);
    t := s;
    if !HolderAt(s, Sending) {
      var a := PushStep(s.mutex.id);
      assert s.pcs[s.mutex.id].Critical();
      HolderMoves(s, flushSize);
      DoomedStep(s, a, flushSize);
      ControlStep(s, a, flushSize);
      LeadsOn(s, s, a, flushSize);
      var u := Do(s, a, flushSize);
      t := DoomedWedges(u, flushSize);
      LeadsThrough(s, u, t, flushSize);
    }
  }

  lemma SubsetSize<T>(a: set<T>, b: set<T>)
    requires a <= b
    ensures |a| <= |b|
  {
    assert b == a + (b - a);
  }

  /** Enough fresh calls, a shutdown, and the wedge is within reach. */
  lemma WedgeBeforeStop<T(!new)>(s: State<T>, e: T, flushSize: int) returns (t: State<T>)
    requires Inv(s, flushSize) && !s.m.shutdown
    ensures Leads(s, t, flushSize) && Wedged(t)
  {
    var u := FreshCallsWait(s, e, 2 * Threshold(flushSize), flushSize);
    LeadsKeepsInv(s, u, flushSize);
    if u.run.Heading? && Doomed(u, flushSize) {
      t := DoomedWedges(u, flushSize);
    } else {
      var v := ReachStop(u, flushSize);
      LeadsKeepsInv(u, v, flushSize);
      SubsetSize(Waiting(u), Waiting(v));
      t := WedgeAfterStop(v, flushSize);
      LeadsThrough(u, v, t, flushSize);
    }
    LeadsThrough(s, u, t, flushSize);
  }

  /** A wedge can still be reached exactly in the states described by CanWedge: in every state
      before the store of `shutdown`, for every flush size, and afterwards if there are enough
      waiting calls for what channel and flag then require. */
  lemma WedgePossibleExactly<T(!new)>(s: State<T>, e: T, flushSize: int)
    requires Reachable(s, flushSize)
    ensures (exists t :: Leads(s, t, flushSize) && Wedged(t)) <==> CanWedge(s, flushSize)
  {
    InvReachable(s, flushSize);
    forall t | Leads(s, t, flushSize) && Wedged(t) ensures CanWedge(s, flushSize) {
      var acts: seq<Action<T>> :| Exec(s, acts, flushSize) == Some(t);
      BackExec(s, acts, flushSize);
    }
    if CanWedge(s, flushSize) {
      var t;
      if s.m.shutdown {
        t := WedgeAfterStop(s, flushSize);
      } else {
        t := WedgeBeforeStop(s, e, flushSize);
      }
    }
  }
}
