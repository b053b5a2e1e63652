/** The delete queue flushing into the file store, as internal/app/app.go runs them: both
    loops watch one context, and Close is called only after the queue's loop has returned.

    The two protocols take their steps in any interleaving.  What ties them together is the
    flush callback: it calls DeleteUserURLs, and doFlush goes on when that has returned. */
module DeletesToFile {
  import opened Sequences
  import opened MemoryDb
  import Q = FlusherProtocol
  import QI = FlusherInvariant
  import P = PersisterProtocol
  import PI = PersisterInvariant
  import PP = PersisterProgress
  import PT = PersisterTheorems
  import PC = PersisterClosing

  /** `calls[j]` is the store's call for the j-th batch; `open` says that the last of them
      belongs to the batch that is being flushed. */
  datatype State = State(q: Q.State<URL>, p: P.State, calls: seq<nat>, open: bool)

  datatype Action =
    | Cancel                      // the common context is cancelled
    | Queue(qa: Q.Action<URL>)
    | File(pa: P.Action)
    | StartFlush                  // the callback calls DeleteUserURLs

  function Init(db: DB): State {
    State(Q.Init(), P.Init(db), [], false)
  }

  predicate Over(pc: P.MutPc) { pc.Succeeded? || pc.Refused? || pc.Failed? }

  /** The queue is about to run the callback, or is running it. */
  predicate InCallback(s: State) { s.q.run.Flushing? && s.q.m.buf != [] }

  predicate CallbackOver(s: State) {
    s.open && |s.calls| > 0 && s.calls[|s.calls| - 1] < |s.p.pcs| && Over(s.p.pcs[s.calls[|s.calls| - 1]])
  }

  predicate Enabled(s: State, a: Action) {
    match a
    case Cancel => true
    case Queue(qa) => qa != Q.Cancel && Q.Enabled(s.q, qa) && (InCallback(s) && qa == Q.RunStep ==> CallbackOver(s))
    case File(pa) => pa != P.Cancel && P.Enabled(s.p, pa) && (pa == P.CloseCall ==> s.q.run == Q.Returned)
    case StartFlush => InCallback(s) && !s.open
  }

  ghost predicate Sized(s: State) {
    |s.q.pcs| == |s.q.elems| && |s.p.pcs| == |s.p.ops| && |s.p.hist| > 0
  }

  function Do(s: State, a: Action, flushSize: int): (t: State)
    requires Enabled(s, a) && Sized(s)
    ensures Sized(t)
  {
    match a
    case Cancel => s.(q := Q.Do(s.q, Q.Cancel, flushSize), p := P.Do(s.p, P.Cancel))
    case Queue(qa) =>
      s.(q := Q.Do(s.q, qa, flushSize), open := s.open && !(s.q.run.Flushing? && qa == Q.RunStep))
    case File(pa) => s.(p := P.Do(s.p, pa))
    case StartFlush =>
      s.(p := P.Do(s.p, P.Call(OpDelete(s.q.m.buf))), calls := s.calls + [|s.p.pcs|], open := true)
  }

  function Exec(s: State, acts: seq<Action>, flushSize: int): Option<State>
    requires Sized(s)
    decreases |acts|
  {
    if acts == [] then Some(s)
    else if Enabled(s, acts[0]) then Exec(Do(s, acts[0], flushSize), acts[1..], flushSize)
    else None
  }

  ghost predicate Reachable(db: DB, s: State, flushSize: int) {
    exists acts :: Exec(Init(db), acts, flushSize) == Some(s)
  }

  // ---------------------------------------------------------------- invariants

  /** The call of batch j, or of the buffer being flushed: it has not failed, and was refused
      only by a store that is shutting down. */
  ghost predicate CallOk(s: State, j: nat)
    requires Sized(s)
  {
    && j < |s.calls| && s.calls[j] < |s.p.pcs|
    && !s.p.pcs[s.calls[j]].Failed?
    && (s.p.pcs[s.calls[j]].Refused? ==> s.p.shutdown)
    && (if j < |s.q.m.batches|
        then s.p.ops[s.calls[j]] == OpDelete(s.q.m.batches[j]) && Over(s.p.pcs[s.calls[j]])
        else s.open && s.p.ops[s.calls[j]] == OpDelete(s.q.m.buf))
  }

  /** Calls of later batches make later versions. */
  ghost predicate CallsInOrder(s: State) {
    forall i, j :: 0 <= i < j < |s.calls| ==>
      s.calls[i] < s.calls[j] < |s.p.pcs| &&
      (s.p.pcs[s.calls[i]].Succeeded? && (s.p.pcs[s.calls[j]].Mutated? || s.p.pcs[s.calls[j]].Succeeded?) ==>
         s.p.pcs[s.calls[i]].version < s.p.pcs[s.calls[j]].version)
  }

  ghost predicate CallsOk(s: State) {
    && Sized(s)
    && |s.calls| == |s.q.m.batches| + (if s.open then 1 else 0)
    && (s.open ==> InCallback(s))
    && (forall j: nat :: j < |s.calls| ==> CallOk(s, j))
    && CallsInOrder(s)
  }

  ghost predicate Inv(s: State, flushSize: int) {
    QI.Control(s.q, flushSize) && PI.Inv(s.p) && CallsOk(s)
  }

  /** What an action of the queue other than the end of a callback leaves as it is. */
  lemma QueueFrame(s: State, qa: Q.Action<URL>, flushSize: int)
    requires Sized(s) && QI.MutexOk(s.q) && Q.Enabled(s.q, qa) && !(InCallback(s) && qa == Q.RunStep)
    ensures var q := Q.Do(s.q, qa, flushSize);
      q.m.batches == s.q.m.batches && (InCallback(s) ==> q.run == s.q.run && q.m.buf == s.q.m.buf)
  {
    QI.QueueStep(s.q, qa, flushSize);
    match qa
    case PushStep(i) => QI.PushFrame(s.q, i, flushSize);
    case Call(e) =>
    case Cancel =>
    case Select(c) =>
    case RunStep =>
  }

  lemma QueueStep(s: State, qa: Q.Action<URL>, flushSize: int)
    requires CallsOk(s) && QI.MutexOk(s.q) && Enabled(s, Queue(qa))
    ensures CallsOk(Do(s, Queue(qa), flushSize))
  {
    var t := Do(s, Queue(qa), flushSize);
    if InCallback(s) && qa == Q.RunStep {
      assert t.q.m.batches == s.q.m.batches + [s.q.m.buf];
      forall j: nat | j < |t.calls| ensures CallOk(t, j) {
        assert CallOk(s, j);
      }
    } else {
      QueueFrame(s, qa, flushSize);
      forall j: nat | j < |t.calls| ensures CallOk(t, j) {
        assert CallOk(s, j);
      }
    }
  }

  lemma MutCallOk(s: State, i: nat, j: nat, flushSize: int)
    requires CallsOk(s) && PI.MutexOk(s.p) && Enabled(s, File(P.MutStep(i))) && j < |s.calls|
    ensures CallOk(Do(s, File(P.MutStep(i)), flushSize), j)
  {
    PI.MutFrame(s.p, i);
    assert CallOk(s, j);
    if i == s.calls[j] {
      match s.p.pcs[i] {
        case Called =>
        case Checked => P.EditsAreOp(s.p.db, s.p.ops[i]);
        case Editing(todo) =>
        case Mutated(v) =>
      }
    }
  }

  lemma MutInOrder(s: State, i: nat, flushSize: int)
    requires CallsOk(s) && PI.Inv(s.p) && Enabled(s, File(P.MutStep(i)))
    ensures CallsInOrder(Do(s, File(P.MutStep(i)), flushSize))
  {
    PI.MutFrame(s.p, i);
    PI.MutPcMoves(s.p, i);
    var t := Do(s, File(P.MutStep(i)), flushSize);
    forall k, j | 0 <= k < j < |t.calls|
      ensures t.calls[k] < t.calls[j] < |t.p.pcs| &&
        (t.p.pcs[t.calls[k]].Succeeded? && (t.p.pcs[t.calls[j]].Mutated? || t.p.pcs[t.calls[j]].Succeeded?) ==>
           t.p.pcs[t.calls[k]].version < t.p.pcs[t.calls[j]].version)
    {
      assert CallOk(s, k) && CallOk(s, j);
      assert k < |s.q.m.batches| && s.calls[k] != i;
      assert t.p.pcs[t.calls[k]] == s.p.pcs[s.calls[k]];
    }
  }

  lemma FileFrame(p: P.State, pa: P.Action)
    requires PI.MutexOk(p) && |p.hist| > 0 && P.Enabled(p, pa) && !pa.MutStep?
    ensures var t := P.Do(p, pa);
      p.pcs <= t.pcs && p.ops <= t.ops && |t.pcs| == |t.ops| && (p.shutdown ==> t.shutdown)
  {
    match pa
    case Step => PI.StepFrame(p);
    case Call(_) =>
    case Cancel =>
    case CloseCall =>
    case CloseReturn =>
    case Select(_) =>
    case Copy(_) =>
    case IoFails =>
  }

  /** Nothing that happens to the store besides its calls' own steps touches a call. */
  lemma CallsKept(s: State, t: State)
    requires CallsOk(s) && Sized(t) && t.q.m == s.q.m && t.q.run == s.q.run && t.calls == s.calls && t.open == s.open
    requires s.p.pcs <= t.p.pcs && s.p.ops <= t.p.ops && (s.p.shutdown ==> t.p.shutdown)
    ensures CallsOk(t)
  {
    forall j: nat | j < |t.calls| ensures CallOk(t, j) {
      assert CallOk(s, j);
    }
    forall i, j | 0 <= i < j < |t.calls|
      ensures t.p.pcs[t.calls[i]] == s.p.pcs[s.calls[i]] && t.p.pcs[t.calls[j]] == s.p.pcs[s.calls[j]]
    {
      assert CallOk(s, i) && CallOk(s, j);
    }
  }

  lemma StartStep(s: State, flushSize: int)
    requires CallsOk(s) && Enabled(s, StartFlush)
    ensures CallsOk(Do(s, StartFlush, flushSize))
  {
    var t := Do(s, StartFlush, flushSize);
    forall j: nat | j < |t.calls| ensures CallOk(t, j) {
      if j < |s.calls| {
        assert CallOk(s, j);
      }
    }
    forall i, j | 0 <= i < j < |t.calls|
      ensures t.calls[i] < t.calls[j] < |t.p.pcs|
      ensures t.p.pcs[t.calls[i]].Succeeded? && (t.p.pcs[t.calls[j]].Mutated? || t.p.pcs[t.calls[j]].Succeeded?) ==>
        t.p.pcs[t.calls[i]].version < t.p.pcs[t.calls[j]].version
    {
      assert CallOk(s, i);
    }
  }

  lemma CallsStep(s: State, a: Action, flushSize: int)
    requires CallsOk(s) && QI.MutexOk(s.q) && PI.Inv(s.p) && Enabled(s, a)
    ensures CallsOk(Do(s, a, flushSize))
  {
    match a
    case Cancel => CallsKept(s, Do(s, a, flushSize));
    case Queue(qa) => QueueStep(s, qa, flushSize);
    case StartFlush => StartStep(s, flushSize);
    case File(pa) =>
      if pa.MutStep? {
        PI.MutFrame(s.p, pa.id);
        forall j: nat | j < |s.calls| ensures CallOk(Do(s, a, flushSize), j) {
          MutCallOk(s, pa.id, j, flushSize);
        }
        MutInOrder(s, pa.id, flushSize);
      } else {
        FileFrame(s.p, pa);
        CallsKept(s, Do(s, a, flushSize));
      }
  }

  lemma InvStep(s: State, a: Action, flushSize: int)
    requires Inv(s, flushSize) && Enabled(s, a)
    ensures Inv(Do(s, a, flushSize), flushSize)
  {
    CallsStep(s, a, flushSize);
    match a
    case Cancel =>
      QI.ControlStep(s.q, Q.Cancel, flushSize);
      PI.InvStep(s.p, P.Cancel);
    case Queue(qa) => QI.ControlStep(s.q, qa, flushSize);
    case File(pa) => PI.InvStep(s.p, pa);
    case StartFlush => PI.InvStep(s.p, P.Call(OpDelete(s.q.m.buf)));
  }

  lemma FirstVersion(s: State, a: Action, flushSize: int)
    requires Sized(s) && PI.MutexOk(s.p) && Enabled(s, a)
    ensures Do(s, a, flushSize).p.hist[0] == s.p.hist[0]
  {
    if a.File? {
      PI.FirstVersionStays(s.p, a.pa);
    }
  }

  lemma {:induction false} InvExec(s: State, acts: seq<Action>, flushSize: int)
    requires Inv(s, flushSize) && Exec(s, acts, flushSize).Some?
    ensures Inv(Exec(s, acts, flushSize).value, flushSize)
    ensures Exec(s, acts, flushSize).value.p.hist[0] == s.p.hist[0]
    decreases |acts|
  {
    if acts != [] {
      InvStep(s, acts[0], flushSize);
      FirstVersion(s, acts[0], flushSize);
      InvExec(Do(s, acts[0], flushSize), acts[1..], flushSize);
    }
  }

  lemma InvReachable(db: DB, s: State, flushSize: int)
    requires Reachable(db, s, flushSize)
    ensures Inv(s, flushSize) && s.p.hist[0] == db
  {
    var acts :| Exec(Init(db), acts, flushSize) == Some(s);
    assert PI.Inv(P.Init(db));
    InvExec(Init(db), acts, flushSize);
  }

  // ---------------------------------------------------------------- each side is a run of its own

  lemma {:induction false} Projections(s: State, acts: seq<Action>, flushSize: int)
    returns (qacts: seq<Q.Action<URL>>, pacts: seq<P.Action>)
    requires Sized(s) && Exec(s, acts, flushSize).Some?
    ensures Q.Exec(s.q, qacts, flushSize) == Some(Exec(s, acts, flushSize).value.q)
    ensures P.Exec(s.p, pacts) == Some(Exec(s, acts, flushSize).value.p)
    ensures P.IoFails in pacts ==> File(P.IoFails) in acts
    decreases |acts|
  {
    if acts == [] {
      qacts, pacts := [], [];
    } else {
      var a := acts[0];
      qacts, pacts := Projections(Do(s, a, flushSize), acts[1..], flushSize);
      if a.Cancel? || a.Queue? {
        var qa := if a.Cancel? then Q.Cancel else a.qa;
        assert ([qa] + qacts)[1..] == qacts;
        qacts := [qa] + qacts;
      }
      if !a.Queue? {
        var pa := match a
          case Cancel => P.Cancel
          case File(pa) => pa
          case _ => P.Call(OpDelete(s.q.m.buf));
        assert ([pa] + pacts)[1..] == pacts;
        pacts := [pa] + pacts;
      }
    }
  }

  /** Run together, the queue and the store still do only what each protocol allows, so that
      all that is proved of either holds here. */
  lemma BothReachable(db: DB, s: State, flushSize: int)
    requires Reachable(db, s, flushSize)
    ensures Q.Reachable(s.q, flushSize) && P.Reachable(db, s.p)
  {
    var acts :| Exec(Init(db), acts, flushSize) == Some(s);
    var qacts, pacts := Projections(Init(db), acts, flushSize);
    assert Q.Exec(Q.Init(), qacts, flushSize) == Some(s.q);
    assert P.Exec(P.Init(db), pacts) == Some(s.p);
  }

  // ---------------------------------------------------------------- how app.Run ties them

  /** One context for both, and no Close before the queue's loop has returned. */
  ghost predicate Tied(s: State) {
    s.q.cancelled == s.p.cancelled && (s.p.closer != P.NotCalled ==> s.q.run == Q.Returned)
  }

  lemma TiedQueueStep(s: State, qa: Q.Action<URL>, flushSize: int)
    requires Sized(s) && Enabled(s, Queue(qa))
    ensures var q := Q.Do(s.q, qa, flushSize);
      q.cancelled == s.q.cancelled && (s.q.run == Q.Returned ==> q.run == Q.Returned)
  {
    match qa
    case PushStep(i) =>
      match s.q.pcs[i] {
        case _ =>
      }
    case Call(_) =>
    case Select(_) =>
    case RunStep =>
  }

  lemma TiedFileStep(s: State, pa: P.Action)
    requires Sized(s) && Enabled(s, File(pa))
    ensures var p := P.Do(s.p, pa);
      p.cancelled == s.p.cancelled && (p.closer != P.NotCalled ==> s.p.closer != P.NotCalled || pa == P.CloseCall)
  {
    match pa
    case MutStep(i) =>
      match s.p.pcs[i] {
        case _ =>
      }
    case Step =>
    case Call(_) =>
    case CloseCall =>
    case CloseReturn =>
    case Select(_) =>
    case Copy(_) =>
    case IoFails =>
  }

  lemma TiedStep(s: State, a: Action, flushSize: int)
    requires Sized(s) && Tied(s) && Enabled(s, a)
    ensures Tied(Do(s, a, flushSize))
  {
    match a
    case Cancel =>
    case Queue(qa) => TiedQueueStep(s, qa, flushSize);
    case StartFlush =>
    case File(pa) => TiedFileStep(s, pa);
  }

  lemma {:induction false} TiedExec(s: State, acts: seq<Action>, flushSize: int)
    requires Sized(s) && Tied(s) && Exec(s, acts, flushSize).Some?
    ensures Tied(Exec(s, acts, flushSize).value)
    decreases |acts|
  {
    if acts != [] {
      TiedStep(s, acts[0], flushSize);
      TiedExec(Do(s, acts[0], flushSize), acts[1..], flushSize);
    }
  }

  /** The store is closed only when the queue's loop has returned, and the cancellation that
      stops the one stops the other. */
  lemma CloseComesLast(db: DB, s: State, flushSize: int)
    requires Reachable(db, s, flushSize)
    ensures s.p.closer != P.NotCalled ==> s.q.run == Q.Returned
    ensures s.q.cancelled == s.p.cancelled
  {
    var acts :| Exec(Init(db), acts, flushSize) == Some(s);
    TiedExec(Init(db), acts, flushSize);
  }

  // ---------------------------------------------------------------- what becomes of a batch

  /** Batch j made version v of the store, by one deletion of all its entries. */
  ghost predicate AppliedAs(s: State, j: nat, v: nat) {
    && j < |s.q.m.batches| && j < |s.calls|
    && 1 <= v < |s.p.hist| && v <= |s.p.makers| && s.p.makers[v - 1] == s.calls[j]
    && s.p.hist[v] == DeleteAll(s.p.hist[v - 1], s.q.m.batches[j])
  }

  /** Batch j made no version, and its call has returned. */
  ghost predicate RefusedBatch(s: State, j: nat) {
    && j < |s.q.m.batches| && j < |s.calls| && s.calls[j] < |s.p.pcs|
    && s.p.pcs[s.calls[j]].Refused? && s.calls[j] !in s.p.makers && s.p.shutdown
  }

  lemma RefusedMadeNothing(p: P.State, i: nat)
    requires PI.MakersOk(p) && i < |p.pcs| && (p.pcs[i].Refused? || p.pcs[i].Called?)
    ensures i !in p.makers
  {
    forall u | 0 <= u < |p.makers| ensures p.makers[u] != i {
      PT.MakerAt(p, u);
    }
  }

  lemma BatchOutcome(s: State, j: nat, flushSize: int) returns (v: nat)
    requires Inv(s, flushSize) && j < |s.q.m.batches|
    ensures AppliedAs(s, j, v) || RefusedBatch(s, j)
    ensures j < |s.calls| && s.calls[j] < |s.p.pcs|
    ensures s.p.pcs[s.calls[j]].Succeeded? ==> AppliedAs(s, j, v)
  {
    assert CallOk(s, j);
    v := 0;
    if s.p.pcs[s.calls[j]].Succeeded? {
      v := s.p.pcs[s.calls[j]].version;
      assert s.p.makers[v - 1] == s.calls[j];
    } else {
      RefusedMadeNothing(s.p, s.calls[j]);
    }
  }

  /** Every batch that the queue has flushed is one version of the store, or the store was
      shutting down and refused it whole; before the store's shutdown none is refused. */
  lemma FlushedExactlyOnce(db: DB, s: State, flushSize: int, j: nat)
    requires Reachable(db, s, flushSize) && j < |s.q.m.batches|
    ensures RefusedBatch(s, j) <==> !exists v: nat :: AppliedAs(s, j, v)
    ensures RefusedBatch(s, j) ==> s.p.shutdown
    ensures forall v: nat, w: nat :: AppliedAs(s, j, v) && AppliedAs(s, j, w) ==> v == w
  {
    InvReachable(db, s, flushSize);
    var v := BatchOutcome(s, j, flushSize);
    forall w: nat | AppliedAs(s, j, w) ensures s.calls[j] in s.p.makers {
      assert s.p.makers[w - 1] in s.p.makers;
    }
    forall x: nat, w: nat | AppliedAs(s, j, x) && AppliedAs(s, j, w) ensures x == w {
      PT.MakerAt(s.p, x - 1);
      PT.MakerAt(s.p, w - 1);
    }
  }

  /** The batches that reach the store do so in the order of the queue. */
  lemma AppliedInOrder(db: DB, s: State, flushSize: int, i: nat, j: nat, v: nat, w: nat)
    requires Reachable(db, s, flushSize) && i < j
    requires AppliedAs(s, i, v) && AppliedAs(s, j, w)
    ensures v < w
  {
    InvReachable(db, s, flushSize);
    assert CallOk(s, i) && CallOk(s, j);
    PT.MakerAt(s.p, v - 1);
    PT.MakerAt(s.p, w - 1);
  }

  // ---------------------------------------------------------------- continuations

  ghost predicate Leads(s: State, t: State, flushSize: int) {
    Sized(s) && exists acts :: Exec(s, acts, flushSize) == Some(t)
  }

  lemma LeadsSelf(s: State, flushSize: int)
    requires Sized(s)
    ensures Leads(s, s, flushSize)
  {
    assert Exec(s, [], flushSize) == Some(s);
  }

  /** One action first, then t. */
  lemma LeadsFirst(s: State, a: Action, t: State, flushSize: int)
    requires Sized(s) && Enabled(s, a) && Leads(Do(s, a, flushSize), t, flushSize)
    ensures Leads(s, t, flushSize)
  {
    var acts :| Exec(Do(s, a, flushSize), acts, flushSize) == Some(t);
    assert ([a] + acts)[1..] == acts;
    assert Exec(s, [a] + acts, flushSize) == Some(t);
  }

  lemma {:induction false} LeadsBy(s: State, acts: seq<Action>, t: State, u: State, flushSize: int)
    requires Sized(s) && Exec(s, acts, flushSize) == Some(t) && Leads(t, u, flushSize)
    ensures Leads(s, u, flushSize)
    decreases |acts|
  {
    if acts != [] {
      LeadsBy(Do(s, acts[0], flushSize), acts[1..], t, u, flushSize);
      LeadsFirst(s, acts[0], u, flushSize);
    }
  }

  lemma LeadsThrough(s: State, t: State, u: State, flushSize: int)
    requires Leads(s, t, flushSize) && Leads(t, u, flushSize)
    ensures Leads(s, u, flushSize)
  {
    var acts :| Exec(s, acts, flushSize) == Some(t);
    LeadsBy(s, acts, t, u, flushSize);
  }

  lemma LeadsOn(s: State, t: State, a: Action, flushSize: int) returns (u: State)
    requires Sized(t) && Leads(s, t, flushSize) && Enabled(t, a)
    ensures u == Do(t, a, flushSize) && Leads(s, u, flushSize)
  {
    u := Do(t, a, flushSize);
    LeadsSelf(u, flushSize);
    LeadsFirst(t, a, u, flushSize);
    LeadsThrough(s, t, u, flushSize);
  }

  lemma LeadsKeepsInv(s: State, t: State, flushSize: int)
    requires Inv(s, flushSize) && Leads(s, t, flushSize)
    ensures Inv(t, flushSize)
  {
    var acts :| Exec(s, acts, flushSize) == Some(t);
    InvExec(s, acts, flushSize);
  }

  /** A step of the store alone. */
  lemma FileOn(s: State, t: State, pa: P.Action, flushSize: int) returns (u: State)
    requires Sized(t) && PI.Inv(t.p) && Leads(s, t, flushSize)
    requires pa != P.Cancel && pa != P.CloseCall && P.Enabled(t.p, pa)
    ensures u == t.(p := P.Do(t.p, pa)) && Leads(s, u, flushSize) && Sized(u) && PI.Inv(u.p)
  {
    PI.InvStep(t.p, pa);
    u := LeadsOn(s, t, File(pa), flushSize);
  }

  /** Whoever has the mutex of the store finishes with it. */
  lemma {:induction false} FreeMutex(s: State, flushSize: int) returns (t: State)
    requires Sized(s) && PI.Inv(s.p)
    ensures Leads(s, t, flushSize) && Sized(t) && PI.Inv(t.p)
    ensures t == s.(p := t.p) && t.p.mutex == P.Free && PP.CallsWait(s.p, t.p)
    ensures s.p.mutex.HeldBy? ==> t.p.pcs[s.p.mutex.id].Mutated?
    ensures PP.Rank(t.p.run) <= PP.Rank(s.p.run) && !t.p.run.Copying?
    decreases PP.Held(s.p)
  {
    LeadsSelf(s, flushSize);
    if s.p.mutex == P.Free {
      t := s;
    } else {
      var a := PP.HolderStep(s.p);
      if s.p.mutex.HeldBy? {
        PP.MutProgress(s.p);
      } else {
        PP.DumpProgress(s.p);
      }
      var u := FileOn(s, s, a, flushSize);
      t := FreeMutex(u, flushSize);
      PP.CallsWaitOn(s.p, u.p, t.p);
      LeadsThrough(s, u, t, flushSize);
    }
  }

  /** With the context cancelled the store can shut down while the queue stands still. */
  lemma {:induction false} ReachShutdown(s: State, flushSize: int) returns (t: State)
    requires Sized(s) && PI.Inv(s.p) && s.p.cancelled
    ensures Leads(s, t, flushSize) && t == s.(p := t.p) && t.p.shutdown
    decreases PP.Rank(s.p.run)
  {
    LeadsSelf(s, flushSize);
    if s.p.shutdown {
      t := s;
    } else {
      var u := s;
      if s.p.run.Locking? || s.p.run.Copying? {
        u := FreeMutex(s, flushSize);
      }
      PP.StopProgress(u.p);
      u := FileOn(s, u, if u.p.run == P.Waiting then P.Select(P.Ctx) else P.Step, flushSize);
      t := u;
      if !u.p.shutdown {
        t := ReachShutdown(u, flushSize);
        LeadsThrough(s, u, t, flushSize);
      }
    }
  }

  lemma DeleteLocks(p: P.State, i: nat)
    requires PI.MutexOk(p) && |p.hist| > 0 && p.mutex == P.Free
    requires i < |p.pcs| && p.pcs[i] == P.Checked && p.ops[i].OpDelete?
    ensures P.Enabled(p, P.MutStep(i))
    ensures var t := P.Do(p, P.MutStep(i)); t.mutex == P.HeldBy(i) && |t.pcs| == |p.pcs|
  {
    assert P.Edits(p.db, p.ops[i]).Ok?;
  }

  /** A delete that has passed the check of `shutdown` can go through with the queue standing
      still. */
  lemma DeleteAlone(s: State, i: nat, flushSize: int) returns (t: State)
    requires Sized(s) && PI.Inv(s.p) && i < |s.p.pcs| && s.p.pcs[i] == P.Checked && s.p.ops[i].OpDelete?
    ensures Leads(s, t, flushSize)
    ensures t == s.(p := t.p) && |t.p.pcs| == |s.p.pcs| && t.p.pcs[i].Succeeded?
  {
    var u := FreeMutex(s, flushSize);
    DeleteLocks(u.p, i);
    u := FileOn(s, u, P.MutStep(i), flushSize);
    var v := FreeMutex(u, flushSize);
    LeadsThrough(s, u, v, flushSize);
    t := FileOn(s, v, P.MutStep(i), flushSize);
  }

  /** The callback of the current flush has not started. */
  ghost predicate AtFlush(s: State) {
    InCallback(s) && !s.open
  }

  lemma CallbackStarts(s: State, flushSize: int) returns (t: State)
    requires Inv(s, flushSize) && AtFlush(s)
    ensures Leads(s, t, flushSize) && Sized(t) && PI.Inv(t.p)
    ensures t.q == s.q && t.open && t.calls == s.calls + [|s.p.pcs|] && t.p.shutdown == s.p.shutdown
    ensures t.p.pcs == s.p.pcs + [P.Called] && t.p.ops == s.p.ops + [OpDelete(s.q.m.buf)]
  {
    LeadsSelf(s, flushSize);
    t := LeadsOn(s, s, StartFlush, flushSize);
    PI.InvStep(s.p, P.Call(OpDelete(s.q.m.buf)));
  }

  /** The callback starts and comes past the check of `shutdown`, or is refused by it. */
  lemma CallbackChecks(s: State, flushSize: int) returns (t: State)
    requires Inv(s, flushSize) && AtFlush(s)
    ensures Leads(s, t, flushSize) && Inv(t, flushSize) && t.q == s.q && t.open
    ensures t.calls == s.calls + [|s.p.pcs|] && |t.p.pcs| == |s.p.pcs| + 1 && |t.p.ops| == |t.p.pcs|
    ensures t.p.ops[|s.p.pcs|].OpDelete? && t.p.shutdown == s.p.shutdown
    ensures t.p.pcs[|s.p.pcs|] == if s.p.shutdown then P.Refused else P.Checked
  {
    var u := CallbackStarts(s, flushSize);
    t := FileOn(s, u, P.MutStep(|s.p.pcs|), flushSize);
    LeadsKeepsInv(s, t, flushSize);
  }

  /** doFlush goes on when the callback is over. */
  lemma CallbackEnds(s: State, flushSize: int) returns (t: State)
    requires Inv(s, flushSize) && InCallback(s) && CallbackOver(s)
    ensures Leads(s, t, flushSize) && Inv(t, flushSize)
    ensures t.p == s.p && t.calls == s.calls && |t.q.m.batches| == |s.q.m.batches| + 1
  {
    LeadsSelf(s, flushSize);
    InvStep(s, Queue(Q.RunStep), flushSize);
    t := LeadsOn(s, s, Queue(Q.RunStep), flushSize);
  }

  lemma AppliedPossible(s: State, flushSize: int) returns (t: State, v: nat)
    requires Inv(s, flushSize) && AtFlush(s) && !s.p.shutdown
    ensures Leads(s, t, flushSize) && AppliedAs(t, |s.q.m.batches|, v)
  {
    var u := CallbackChecks(s, flushSize);
    var w := DeleteAlone(u, |s.p.pcs|, flushSize);
    LeadsThrough(s, u, w, flushSize);
    LeadsKeepsInv(s, w, flushSize);
    t := CallbackEnds(w, flushSize);
    LeadsThrough(s, w, t, flushSize);
    v := BatchOutcome(t, |s.q.m.batches|, flushSize);
  }

  /** The context is cancelled, and the store shuts down first. */
  lemma StoreStopsFirst(s: State, flushSize: int) returns (t: State)
    requires Inv(s, flushSize)
    ensures Leads(s, t, flushSize) && Inv(t, flushSize) && t.p.shutdown
    ensures t.q == s.q.(cancelled := true) && t.calls == s.calls && t.open == s.open
  {
    LeadsSelf(s, flushSize);
    var u := LeadsOn(s, s, Cancel, flushSize);
    LeadsKeepsInv(s, u, flushSize);
    t := ReachShutdown(u, flushSize);
    LeadsThrough(s, u, t, flushSize);
    LeadsKeepsInv(s, t, flushSize);
  }

  lemma RefusedPossible(s: State, flushSize: int) returns (t: State)
    requires Inv(s, flushSize) && AtFlush(s)
    ensures Leads(s, t, flushSize) && RefusedBatch(t, |s.q.m.batches|)
  {
    var u := StoreStopsFirst(s, flushSize);
    var w := CallbackChecks(u, flushSize);
    LeadsThrough(s, u, w, flushSize);
    t := CallbackEnds(w, flushSize);
    LeadsThrough(s, w, t, flushSize);
    RefusedMadeNothing(t.p, |u.p.pcs|);
  }

  /** The n-th batch, once its callback starts, meets a store that is shutting down. */
  ghost predicate MeetsShutdown(s: State, n: nat) {
    s.p.shutdown &&
    (n < |s.calls| ==>
       s.calls[n] < |s.p.pcs| && (s.p.pcs[s.calls[n]].Called? || s.p.pcs[s.calls[n]].Refused?))
  }

  lemma MeetsStep(s: State, a: Action, n: nat, flushSize: int)
    requires Inv(s, flushSize) && MeetsShutdown(s, n) && Enabled(s, a)
    ensures MeetsShutdown(Do(s, a, flushSize), n)
  {
    match a
    case Cancel =>
    case Queue(_) =>
    case StartFlush =>
    case File(pa) =>
      if pa.MutStep? {
        PI.MutFrame(s.p, pa.id);
      } else {
        FileFrame(s.p, pa);
      }
  }

  lemma {:induction false} MeetsExec(s: State, acts: seq<Action>, n: nat, flushSize: int)
    requires Inv(s, flushSize) && MeetsShutdown(s, n) && Exec(s, acts, flushSize).Some?
    ensures Inv(Exec(s, acts, flushSize).value, flushSize) && MeetsShutdown(Exec(s, acts, flushSize).value, n)
    decreases |acts|
  {
    if acts != [] {
      InvStep(s, acts[0], flushSize);
      MeetsStep(s, acts[0], n, flushSize);
      MeetsExec(Do(s, acts[0], flushSize), acts[1..], n, flushSize);
    }
  }

  lemma NeverApplied(s: State, t: State, v: nat, flushSize: int)
    requires Inv(s, flushSize) && AtFlush(s) && s.p.shutdown && Leads(s, t, flushSize)
    ensures !AppliedAs(t, |s.q.m.batches|, v)
  {
    var n := |s.q.m.batches|;
    var acts :| Exec(s, acts, flushSize) == Some(t);
    MeetsExec(s, acts, n, flushSize);
    if n < |t.calls| {
      RefusedMadeNothing(t.p, t.calls[n]);
    }
  }

  /** A flush that is about to call the store can still be applied exactly when the store is
      not shutting down; and it can always be lost, for the context that ends the queue's
      loop lets the store shut down first, although Close waits for the queue. */
  lemma FlushAppliedExactly(db: DB, s: State, flushSize: int)
    requires Reachable(db, s, flushSize) && AtFlush(s)
    ensures (exists t, v: nat :: Leads(s, t, flushSize) && AppliedAs(t, |s.q.m.batches|, v)) <==> !s.p.shutdown
    ensures exists t :: Leads(s, t, flushSize) && RefusedBatch(t, |s.q.m.batches|)
  {
    InvReachable(db, s, flushSize);
    var t := RefusedPossible(s, flushSize);
    if s.p.shutdown {
      forall u, v: nat | Leads(s, u, flushSize) ensures !AppliedAs(u, |s.q.m.batches|, v) {
        NeverApplied(s, u, v, flushSize);
      }
    } else {
      var u, v := AppliedPossible(s, flushSize);
    }
  }

  // ---------------------------------------------------------------- what is in the file

  /** Batch j is one of the versions that the file has. */
  ghost predicate InFile(s: State, j: nat) {
    s.p.file.Holds? && exists v: nat :: AppliedAs(s, j, v) && v <= s.p.file.at
  }

  /** Flushed batches and calls that have succeeded stay. */
  ghost predicate Kept(s: State, t: State) {
    && s.calls <= t.calls && s.q.m.batches <= t.q.m.batches && |s.p.pcs| <= |t.p.pcs|
    && forall i :: 0 <= i < |s.p.pcs| && s.p.pcs[i].Succeeded? ==> t.p.pcs[i] == s.p.pcs[i]
  }

  lemma KeptStep(s: State, a: Action, flushSize: int)
    requires Inv(s, flushSize) && Enabled(s, a)
    ensures Kept(s, Do(s, a, flushSize))
  {
    match a
    case Cancel =>
    case Queue(qa) => QI.QueueStep(s.q, qa, flushSize);
    case StartFlush =>
    case File(pa) =>
      if pa.MutStep? {
        PI.MutFrame(s.p, pa.id);
      } else {
        FileFrame(s.p, pa);
      }
  }

  lemma {:induction false} KeptExec(s: State, acts: seq<Action>, flushSize: int)
    requires Inv(s, flushSize) && Exec(s, acts, flushSize).Some?
    ensures Kept(s, Exec(s, acts, flushSize).value)
    decreases |acts|
  {
    if acts != [] {
      InvStep(s, acts[0], flushSize);
      KeptStep(s, acts[0], flushSize);
      KeptExec(Do(s, acts[0], flushSize), acts[1..], flushSize);
    }
  }

  /** From s, where the store is about to shut down, acts is a run of both to the end of the
      store's loop in which no I/O fails. */
  ghost predicate StoreCloses(db: DB, s: State, acts: seq<Action>, flushSize: int) {
    && Reachable(db, s, flushSize) && Sized(s) && s.p.run == P.Stopping && File(P.IoFails) !in acts
    && Exec(Do(s, File(P.Step), flushSize), acts, flushSize).Some?
    && Exec(Do(s, File(P.Step), flushSize), acts, flushSize).value.p.run == P.Finished
  }

  function Closed(s: State, acts: seq<Action>, flushSize: int): State
    requires Sized(s) && s.p.run == P.Stopping && Exec(Do(s, File(P.Step), flushSize), acts, flushSize).Some?
  {
    Exec(Do(s, File(P.Step), flushSize), acts, flushSize).value
  }

  /** What the store's closing theorem says of the pair. */
  lemma FileMissesInFlight(db: DB, s: State, acts: seq<Action>, flushSize: int)
    requires StoreCloses(db, s, acts, flushSize) && !PT.Lost(s.p)
    ensures PC.OnlyInFlightMissing(s.p, Closed(s, acts, flushSize).p)
  {
    BothReachable(db, s, flushSize);
    var _, pacts := Projections(Do(s, File(P.Step), flushSize), acts, flushSize);
    PC.FinalFile(db, s.p, pacts);
  }

  lemma ClosedFacts(db: DB, s: State, acts: seq<Action>, flushSize: int)
    requires StoreCloses(db, s, acts, flushSize)
    ensures Inv(s, flushSize) && Inv(Do(s, File(P.Step), flushSize), flushSize)
    ensures Inv(Closed(s, acts, flushSize), flushSize) && Kept(s, Closed(s, acts, flushSize))
  {
    InvReachable(db, s, flushSize);
    InvStep(s, File(P.Step), flushSize);
    var u := Do(s, File(P.Step), flushSize);
    assert u.calls == s.calls && u.q == s.q && u.p.pcs == s.p.pcs;
    KeptExec(u, acts, flushSize);
    InvExec(u, acts, flushSize);
  }

  lemma SucceededInFile(db: DB, s: State, acts: seq<Action>, j: nat, flushSize: int)
    requires StoreCloses(db, s, acts, flushSize) && !PT.Lost(s.p)
    requires j < |s.calls| && s.calls[j] < |s.p.pcs| && s.p.pcs[s.calls[j]].Succeeded?
    requires j < |Closed(s, acts, flushSize).q.m.batches|
    ensures InFile(Closed(s, acts, flushSize), j)
  {
    ClosedFacts(db, s, acts, flushSize);
    FileMissesInFlight(db, s, acts, flushSize);
    var t := Closed(s, acts, flushSize);
    var v := BatchOutcome(t, j, flushSize);
    assert t.p.makers[v - 1] == s.calls[j];
    assert !PC.NotInFile(t.p, v - 1);
  }

  lemma LateBatchRefused(db: DB, s: State, acts: seq<Action>, j: nat, flushSize: int)
    requires StoreCloses(db, s, acts, flushSize)
    requires MeetsShutdown(Do(s, File(P.Step), flushSize), j) && j < |Closed(s, acts, flushSize).q.m.batches|
    ensures RefusedBatch(Closed(s, acts, flushSize), j)
  {
    ClosedFacts(db, s, acts, flushSize);
    MeetsExec(Do(s, File(P.Step), flushSize), acts, j, flushSize);
    var t := Closed(s, acts, flushSize);
    assert CallOk(t, j);
    RefusedMadeNothing(t.p, t.calls[j]);
  }

  /** The callback of the current flush has called the store and passed its check, and has not
      returned. */
  ghost predicate CallbackInFlight(s: State) {
    s.open && |s.calls| > 0 && s.calls[|s.calls| - 1] < |s.p.pcs| && s.p.pcs[s.calls[|s.calls| - 1]].InFlight()
  }

  /** Which deletes are in the file when the store's loop has ended, and so when Close has
      returned: unless an update was lost before, all batches whose callback had returned from
      the store when it stored `shutdown`, and none whose callback had not passed the check by
      then; only the one in between, if there is any, may go either way. */
  lemma DeletesInFile(db: DB, s: State, acts: seq<Action>, flushSize: int, j: nat)
    requires StoreCloses(db, s, acts, flushSize) && !PT.Lost(s.p)
    requires j < |Closed(s, acts, flushSize).q.m.batches|
    ensures j < |s.q.m.batches| ==> InFile(Closed(s, acts, flushSize), j)
    ensures j > |s.q.m.batches| ==> RefusedBatch(Closed(s, acts, flushSize), j)
    ensures j == |s.q.m.batches| && !CallbackInFlight(s) ==>
      if CallbackOver(s) then InFile(Closed(s, acts, flushSize), j) else RefusedBatch(Closed(s, acts, flushSize), j)
  {
    InvReachable(db, s, flushSize);
    if j < |s.calls| {
      assert CallOk(s, j);
    }
    if j < |s.calls| && s.p.pcs[s.calls[j]].Succeeded? {
      SucceededInFile(db, s, acts, j, flushSize);
    } else if j >= |s.calls| || s.p.pcs[s.calls[j]].Called? {
      LateBatchRefused(db, s, acts, j, flushSize);
    }
  }
}
