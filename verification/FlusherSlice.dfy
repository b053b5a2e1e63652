/** Push and doFlush over a Go slice: a backing array with a length and a capacity that a
    later append may write in place.  Each method is tied to the shared-state functions of
    the protocol, so what the protocol proves about `batches` is about array contents. */
module FlusherSlice {
  import opened Sequences
  import opened FlusherProtocol
  import opened FlusherTheorems

  /** A slice header with offset zero; its capacity is the length of its array. */
  datatype Slice<T> = Slice(arr: array<T>, len: nat)

  /** How a Push that nothing interrupts ends. */
  datatype PushResult = Queued | ShuttingDown | BlockedInSend

  /** Push run from its check to its end, or to the send that cannot proceed. */
  function PushAlone<T>(m: Shared<T>, elem: T, flushSize: int): (Shared<T>, PushResult) {
    if m.shutdown then (m, ShuttingDown)
    else
      var m1 := Append(m, elem);
      if !WantsSend(m1, flushSize) then (m1, Queued)
      else if m1.token then (m1, BlockedInSend)
      else (m1.(token := true, flushNeed := true), Queued)
  }

  ghost function ContentsOf<T>(hs: seq<Slice<T>>): (r: seq<seq<T>>)
    reads set h | h in hs :: h.arr
    requires forall h :: h in hs ==> h.len <= h.arr.Length
    ensures |r| == |hs| && forall i :: 0 <= i < |hs| ==> hs[i] in hs && r[i] == hs[i].arr[..hs[i].len]
  {
    seq(|hs|, i requires 0 <= i < |hs| reads set h | h in hs :: h.arr => assert hs[i] in hs; hs[i].arr[..hs[i].len])
  }

  lemma ContentsSnoc<T>(hs: seq<Slice<T>>, h: Slice<T>)
    requires forall x :: x in hs ==> x.len <= x.arr.Length
    requires h.len <= h.arr.Length
    ensures forall x :: x in hs + [h] ==> x.len <= x.arr.Length
    ensures ContentsOf(hs + [h]) == ContentsOf(hs) + [h.arr[..h.len]]
  {
    assert (hs + [h])[..|hs|] == hs;
  }

  class Flusher<T(0)> {
    const flushSize: int
    const allocSize: nat
    var buf: array<T>
    var len: nat
    var size: nat
    var token: bool
    var flushNeed: bool
    var shutdown: bool
    /** Every slice given to the flush callback, oldest first. */
    var handed: seq<Slice<T>>

    ghost predicate Valid()
      reads this
    {
      len <= buf.Length &&
      forall h :: h in handed ==> h.len <= h.arr.Length && h.arr != buf
    }

    /** The present contents of the batches that were handed over. */
    ghost function HandedContents(): seq<seq<T>>
      reads this, set h | h in handed :: h.arr
      requires Valid()
    {
      ContentsOf(handed)
    }

    ghost function Mem(): Shared<T>
      reads this, buf, set h | h in handed :: h.arr
      requires Valid()
    {
      Shared(buf[..len], size, token, flushNeed, shutdown, HandedContents())
    }

    constructor (flushSize: int, allocSize: nat)
      ensures Valid() && fresh(buf) && handed == []
      ensures this.flushSize == flushSize && this.allocSize == allocSize
      ensures Mem() == Init<T>().m
    {
      this.flushSize, this.allocSize := flushSize, allocSize;
      buf := new T[allocSize];
      len, size := 0, 0;
      token, flushNeed, shutdown := false, false, false;
      handed := [];
    }

    /** Moves the contents to a larger array, whose size the runtime chooses. */
    method Grow()
      requires Valid()
      modifies this`buf
      ensures Valid() && fresh(buf) && len < buf.Length
      ensures buf[..len] == old(buf[..len])
    {
      var spare :| spare >= 0;
      var grown := new T[len + 1 + spare];
      forall i | 0 <= i < len {
        grown[i] := buf[i];
      }
      assert grown[..len] == buf[..len];
      buf := grown;
    }

    /** size++ and append: in place while there is capacity, else into a larger array. */
    method AppendElem(elem: T)
      requires Valid()
      modifies this`buf, this`len, this`size, buf
      ensures Valid() && (buf == old(buf) || fresh(buf))
      ensures Mem() == Append(old(Mem()), elem)
    {
      ghost var before := HandedContents();
      size := size + 1;
      if len == buf.Length {
        Grow();
      }
      assert HandedContents() == before;
      label Room:
      buf[len] := elem;
      len := len + 1;
      assert HandedContents() == before by {
        assert forall h :: h in handed ==> h.arr[..h.len] == old@Room(h.arr[..h.len]);
      }
      assert buf[..len] == old(buf[..len]) + [elem];
    }

    method Push(elem: T) returns (r: PushResult)
      requires Valid()
      modifies this`buf, this`len, this`size, this`token, this`flushNeed, buf
      ensures Valid() && (buf == old(buf) || fresh(buf))
      ensures (Mem(), r) == PushAlone(old(Mem()), elem, flushSize)
    {
      if shutdown {
        return ShuttingDown;
      }
      AppendElem(elem);
      if len >= flushSize && !flushNeed {
        if token {
          return BlockedInSend;
        }
        token := true;
        flushNeed := true;
      }
      assert HandedContents() == old(HandedContents());
      return Queued;
    }

    /** A buffer of its own for what follows. */
    method Renew()
      modifies this`buf, this`len, this`flushNeed
      ensures fresh(buf) && len == 0 && !flushNeed
    {
      buf := new T[allocSize];
      len := 0;
      flushNeed := false;
    }

    /** The handed slice keeps its array; the queue goes on with one of its own. */
    method DoFlush()
      requires Valid()
      modifies this`buf, this`len, this`flushNeed, this`handed
      ensures Valid() && (buf == old(buf) || fresh(buf))
      ensures Mem() == FlushBuf(old(Mem())).(flushNeed := false)
      ensures handed == if old(len) == 0 then old(handed) else old(handed) + [Slice(old(buf), old(len))]
    {
      if len == 0 {
        flushNeed := false;
        assert HandedContents() == old(HandedContents());
        return;
      }
      ghost var before := HandedContents();
      ContentsSnoc(handed, Slice(buf, len));
      handed := handed + [Slice(buf, len)];
      Renew();
      assert HandedContents() == before + [old(buf[..len])];
      assert buf[..len] == [];
    }

    method Step(op: Option<T>)
      requires Valid()
      modifies this, buf
      ensures Valid() && (buf == old(buf) || fresh(buf)) && old(handed) <= handed
    {
      match op
      case Some(e) => var _ := Push(e);
      case None => DoFlush();
    }

    /** Any sequence of Push (Some) and doFlush (None) leaves every array that was handed to
        the callback before it untouched, spare capacity included, and keeps it in the
        history. */
    method Drive(ops: seq<Option<T>>)
      requires Valid()
      modifies this, buf
      ensures Valid()
      ensures old(handed) <= handed
      ensures forall h :: h in old(handed) ==> h.arr[..] == old(h.arr[..])
    {
      for i := 0 to |ops|
        invariant Valid() && (buf == old(buf) || fresh(buf))
        invariant old(handed) <= handed
        invariant forall h :: h in old(handed) ==> h.arr[..] == old(h.arr[..])
      {
        Step(ops[i]);
      }
    }
  }

  lemma PushToDecision<T(!new)>(s: State<T>, i: nat, flushSize: int) returns (t: State<T>)
    requires |s.pcs| == |s.elems| && s.mutex == Free && i < |s.pcs| && s.pcs[i] == Called && !s.m.shutdown
    ensures |t.pcs| == |t.elems| && Leads(s, t, flushSize) && i < |t.pcs|
    ensures t.m == Append(s.m, s.elems[i])
    ensures t.pcs[i] == if WantsSend(t.m, flushSize) then Sending else Leaving
  {
    LeadsSelf(s, flushSize);
    LeadsOn(s, s, PushStep(i), flushSize);
    var s1 := Do(s, PushStep(i), flushSize);
    LeadsOn(s, s1, PushStep(i), flushSize);
    var s2 := Do(s1, PushStep(i), flushSize);
    LeadsOn(s, s2, PushStep(i), flushSize);
    var s3 := Do(s2, PushStep(i), flushSize);
    LeadsOn(s, s3, PushStep(i), flushSize);
    t := Do(s3, PushStep(i), flushSize);
  }

  /** PushAlone is what the protocol does with a call that runs without interruption. */
  lemma PushAloneIsRun<T(!new)>(s: State<T>, i: nat, flushSize: int) returns (t: State<T>)
    requires |s.pcs| == |s.elems| && s.mutex == Free && i < |s.pcs| && s.pcs[i] == Called
    ensures Leads(s, t, flushSize)
    ensures var (m, r) := PushAlone(s.m, s.elems[i], flushSize);
      && t.m == m && i < |t.pcs|
      && t.pcs[i] == (match r case Queued => Accepted case ShuttingDown => Rejected case BlockedInSend => Sending)
      && (r.BlockedInSend? ==> !Enabled(t, PushStep(i)))
  {
    if s.m.shutdown {
      LeadsSelf(s, flushSize);
      LeadsOn(s, s, PushStep(i), flushSize);
      t := Do(s, PushStep(i), flushSize);
    } else {
      t := PushToDecision(s, i, flushSize);
      if t.pcs[i] == Sending && !t.m.token {
        LeadsOn(s, t, PushStep(i), flushSize);
        t := Do(t, PushStep(i), flushSize);
        LeadsOn(s, t, PushStep(i), flushSize);
        t := Do(t, PushStep(i), flushSize);
      }
      if t.pcs[i] == Leaving {
        LeadsOn(s, t, PushStep(i), flushSize);
        t := Do(t, PushStep(i), flushSize);
      }
    }
  }
}
