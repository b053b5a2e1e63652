/** The delayed-batch queue of internal/buffer/buffer.go as a state machine.

    Any number of Push calls and one Run loop share a mutex, a wake-up channel of
    capacity one, and two atomic flags.  Every load, store, send, receive, lock and
    unlock that another goroutine can observe is one action; statements that touch
    only what the mutex protects are folded into one action of its holder.

    A run is a sequence of actions, so every statement about Exec is a statement
    about every interleaving. */
module FlusherProtocol {
  import opened Sequences

  /** What the goroutines share, apart from the mutex.  `batches` records every
      slice handed to the flush callback. */
  datatype Shared<T> = Shared(
    buf: seq<T>, size: nat, token: bool, flushNeed: bool, shutdown: bool, batches: seq<seq<T>>)

  function Append<T>(m: Shared<T>, elem: T): Shared<T> {
    m.(size := m.size + 1, buf := m.buf + [elem])
  }

  predicate WantsSend<T>(m: Shared<T>, flushSize: int) {
    |m.buf| >= flushSize && !m.flushNeed
  }

  function FlushBuf<T>(m: Shared<T>): Shared<T> {
    if |m.buf| == 0 then m else m.(batches := m.batches + [m.buf], buf := [])
  }

  /** The first buffer length at which a Push asks for a flush.  The test is made only
      after an append, so a configured size below one behaves like one. */
  function Threshold(flushSize: int): nat {
    if flushSize < 1 then 1 else flushSize
  }

  /** Where a Push call is: before the shutdown check; waiting for the mutex; holding it
      before the append; after the append; at the send; between send and flag; about to
      unlock; returned nil; returned the shutdown error. */
  datatype PushPc = Called | Passed | Entered | Appended | Sending | Sent | Leaving | Accepted | Rejected {
    predicate Critical() { Entered? || Appended? || Sending? || Sent? || Leaving? }
    predicate Finished() { Accepted? || Rejected? }
    predicate Admitted() { !Called? && !Rejected? }
    predicate InFlight() { Admitted() && !Finished() }
  }

  /** The select branch that Run took. */
  datatype Cause = Token | Timer | Ctx

  /** Where Run is: in select; between ctx.Done and storing shutdown; waiting for the
      mutex in doFlush; holding it before the length test; before clearing flushNeed;
      before unlocking; returned. */
  datatype RunPc =
    | Selecting
    | Stopping
    | Heading(cause: Cause)
    | Flushing(cause: Cause)
    | Clearing(cause: Cause)
    | Releasing(cause: Cause)
    | Returned
  {
    predicate Critical() { Flushing? || Clearing? || Releasing? }
  }

  datatype Holder = Free | HeldBy(id: nat) | HeldByRun

  /** `pcs[i]` and `elems[i]` belong to the i-th Push call; `order` lists the calls in the
      order in which they acquired the mutex. */
  datatype State<T> = State(
    m: Shared<T>, mutex: Holder, pcs: seq<PushPc>, elems: seq<T>, run: RunPc, cancelled: bool, order: seq<nat>)

  datatype Action<T> =
    | Call(elem: T)        // some goroutine calls Push
    | Cancel               // the context is cancelled
    | PushStep(id: nat)    // the next statement of one Push call
    | Select(cause: Cause) // Run leaves select by one of its branches
    | RunStep              // the next statement of Run outside select
  {
    predicate OfThread() { PushStep? || Select? || RunStep? }
  }

  function Init<T>(): State<T> {
    State(Shared([], 0, false, false, false, []), Free, [], [], Selecting, false, [])
  }

  predicate Enabled<T>(s: State<T>, a: Action<T>) {
    match a
    case Call(_) => true
    case Cancel => true
    case PushStep(i) =>
      i < |s.pcs| &&
      (match s.pcs[i]
       case Passed => s.mutex == Free
       case Sending => !s.m.token
       case Accepted => false
       case Rejected => false
       case _ => true)
    case Select(c) =>
      s.run == Selecting && (c == Token ==> s.m.token) && (c == Ctx ==> s.cancelled)
    case RunStep =>
      (match s.run
       case Selecting => false
       case Heading(_) => s.mutex == Free
       case Returned => false
       case _ => true)
  }

  function DoPush<T>(s: State<T>, i: nat, flushSize: int): (t: State<T>)
    requires i < |s.pcs| && i < |s.elems|
    ensures |t.pcs| == |s.pcs| && t.elems == s.elems
  {
    match s.pcs[i]
    case Called =>
      s.(pcs := s.pcs[i := if s.m.shutdown then Rejected else Passed])
    case Passed =>
      s.(mutex := HeldBy(i), pcs := s.pcs[i := Entered], order := s.order + [i])
    case Entered =>
      s.(m := Append(s.m, s.elems[i]), pcs := s.pcs[i := Appended])
    case Appended =>
      s.(pcs := s.pcs[i := if WantsSend(s.m, flushSize) then Sending else Leaving])
    case Sending =>
      s.(m := s.m.(token := true), pcs := s.pcs[i := Sent])
    case Sent =>
      s.(m := s.m.(flushNeed := true), pcs := s.pcs[i := Leaving])
    case Leaving =>
      s.(mutex := Free, pcs := s.pcs[i := Accepted])
    case _ => s
  }

  function DoRun<T>(s: State<T>): (t: State<T>)
    ensures t.pcs == s.pcs && t.elems == s.elems
  {
    match s.run
    case Stopping => s.(m := s.m.(shutdown := true), run := Heading(Ctx))
    case Heading(c) => s.(mutex := HeldByRun, run := Flushing(c))
    case Flushing(c) => s.(m := FlushBuf(s.m), run := Clearing(c))
    case Clearing(c) => s.(m := s.m.(flushNeed := false), run := Releasing(c))
    case Releasing(c) => s.(mutex := Free, run := if c == Ctx then Returned else Selecting)
    case _ => s
  }

  function Do<T>(s: State<T>, a: Action<T>, flushSize: int): (t: State<T>)
    requires Enabled(s, a) && |s.pcs| == |s.elems|
    ensures |t.pcs| == |t.elems|
  {
    match a
    case Call(e) => s.(pcs := s.pcs + [Called], elems := s.elems + [e])
    case Cancel => s.(cancelled := true)
    case PushStep(i) => DoPush(s, i, flushSize)
    case Select(Token) => s.(m := s.m.(token := false), run := Heading(Token))
    case Select(Timer) => s.(run := Heading(Timer))
    case Select(Ctx) => s.(run := Stopping)
    case RunStep => DoRun(s)
  }

  /** The state after a whole sequence of actions, if each is enabled in its turn. */
  function Exec<T>(s: State<T>, acts: seq<Action<T>>, flushSize: int): Option<State<T>>
    requires |s.pcs| == |s.elems|
    decreases |acts|
  {
    if acts == [] then Some(s)
    else if Enabled(s, acts[0]) then Exec(Do(s, acts[0], flushSize), acts[1..], flushSize)
    else None
  }

  ghost predicate Reachable<T(!new)>(s: State<T>, flushSize: int) {
    exists acts: seq<Action<T>> :: Exec(Init(), acts, flushSize) == Some(s)
  }

  lemma {:induction false} ExecConcat<T>(s: State<T>, a: seq<Action<T>>, b: seq<Action<T>>, flushSize: int)
    requires |s.pcs| == |s.elems|
    requires Exec(s, a, flushSize).Some?
    ensures |Exec(s, a, flushSize).value.pcs| == |Exec(s, a, flushSize).value.elems|
    ensures Exec(s, a + b, flushSize) == Exec(Exec(s, a, flushSize).value, b, flushSize)
    decreases |a|
  {
    if a == [] {
      assert a + b == b;
    } else {
      assert (a + b)[1..] == a[1..] + b;
      ExecConcat(Do(s, a[0], flushSize), a[1..], b, flushSize);
    }
  }
}
