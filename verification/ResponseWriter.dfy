/** The logging middleware's response writer, which holds the status back until the first
    body byte, and the request loop around it, panics included. */
module ResponseWriter {

  /** A handler's use of the writer.  `n` and `fails` are what the underlying writer would
      answer, should the body reach it. */
  datatype Use = SetStatus(code: int) | WriteBody(data: string, n: nat, fails: bool)

  /** A call that arrived at the underlying writer. */
  datatype Event = Header(code: int) | Body(data: string)

  const OK := 200
  const INTERNAL_SERVER_ERROR := 500

  class Underlying {
    var events: seq<Event>

    constructor ()
      ensures events == []
    {
      events := [];
    }

    method WriteHeader(code: int)
      modifies this
      ensures events == old(events) + [Header(code)]
    {
      events := events + [Header(code)];
    }

    method Write(data: string)
      modifies this
      ensures events == old(events) + [Body(data)]
    {
      events := events + [Body(data)];
    }
  }

  // ---------------------------------------------------------------- what should arrive

  /** The last status set in s, or the given one if none is. */
  function LastStatus(s: seq<Use>, default: int): int {
    if s == [] then default
    else if s[|s| - 1].SetStatus? then s[|s| - 1].code
    else LastStatus(s[..|s| - 1], default)
  }

  function Shown(code: int): int { if code == 0 then OK else code }

  predicate Valid(code: int) { 100 <= code <= 999 }

  ghost predicate NoWrite(s: seq<Use>) {
    forall j :: 0 <= j < |s| ==> !s[j].WriteBody?
  }

  ghost predicate FirstWriteAt(s: seq<Use>, k: nat) {
    k < |s| && s[k].WriteBody? && NoWrite(s[..k])
  }

  /** No body write in s failed. */
  predicate Healthy(s: seq<Use>) {
    forall j :: 0 <= j < |s| && s[j].WriteBody? ==> !s[j].fails
  }

  /** The body writes before and at the first failing one. */
  function Bodies(s: seq<Use>): seq<Event> {
    if s == [] then []
    else
      var front := s[..|s| - 1];
      var last := s[|s| - 1];
      Bodies(front) + if last.WriteBody? && Healthy(front) then [Body(last.data)] else []
  }

  /** The sum of the byte counts that the underlying writer reported for them. */
  function Bytes(s: seq<Use>): nat {
    if s == [] then 0
    else
      var front := s[..|s| - 1];
      var last := s[|s| - 1];
      Bytes(front) + if last.WriteBody? && Healthy(front) then last.n else 0
  }

  /** The header calls for a status: one, unless the status is invalid. */
  function Headers(code: int): seq<Event> {
    if Valid(code) then [Header(code)] else [Header(INTERNAL_SERVER_ERROR), Header(code)]
  }

  /** What has arrived after s, whose first body write is at k. */
  ghost predicate ArrivedAfterWrite(s: seq<Use>, k: nat, events: seq<Event>, size: nat)
    requires k <= |s|
  {
    var code := Shown(LastStatus(s[..k], 0));
    && events == Headers(code) + (if Valid(code) then Bodies(s) else [])
    && size == if Valid(code) then Bytes(s) else 0
  }

  // ---------------------------------------------------------------- what is seen from outside

  /** Wrapper and underlying writer, as seen from outside. */
  datatype Seen = Seen(events: seq<Event>, status: int, size: nat, wroteHeader: bool, writeErr: bool)

  ghost predicate AfterWrite(v: Seen, s: seq<Use>, k: nat)
    requires k <= |s|
  {
    var code := Shown(LastStatus(s[..k], 0));
    && v.wroteHeader
    && ArrivedAfterWrite(s, k, v.events, v.size)
    && v.writeErr == !(Valid(code) && Healthy(s))
    && v.status == LastStatus(s[k..], code)
  }

  /** What is seen after the handler's uses s. */
  ghost predicate After(v: Seen, s: seq<Use>) {
    && (NoWrite(s) ==> v == Seen([], LastStatus(s, 0), 0, false, false))
    && forall k: nat :: FirstWriteAt(s, k) ==> AfterWrite(v, s, k)
  }

  lemma {:induction false} BodiesNone(s: seq<Use>)
    requires NoWrite(s)
    ensures Bodies(s) == [] && Bytes(s) == 0 && Healthy(s)
  {
    if s != [] {
      BodiesNone(s[..|s| - 1]);
    }
  }

  lemma LastStatusSnoc(s: seq<Use>, use: Use, default: int)
    ensures LastStatus(s + [use], default) == if use.SetStatus? then use.code else LastStatus(s, default)
  {
    assert (s + [use])[..|s|] == s;
  }

  lemma BodiesSnoc(s: seq<Use>, use: Use)
    ensures Healthy(s + [use]) <==> Healthy(s) && !(use.WriteBody? && use.fails)
    ensures Bodies(s + [use]) == Bodies(s) + if use.WriteBody? && Healthy(s) then [Body(use.data)] else []
    ensures Bytes(s + [use]) == Bytes(s) + if use.WriteBody? && Healthy(s) then use.n else 0
  {
    assert (s + [use])[..|s|] == s;
    assert forall j :: 0 <= j < |s| ==> (s + [use])[j] == s[j];
    assert (s + [use])[|s|] == use;
  }

  lemma SliceSnoc(s: seq<Use>, use: Use, k: nat)
    requires k <= |s|
    ensures (s + [use])[..k] == s[..k] && (s + [use])[k..] == s[k..] + [use]
  {
  }

  lemma FirstWriteSnoc(s: seq<Use>, use: Use, k: nat)
    requires FirstWriteAt(s + [use], k)
    ensures if k < |s| then FirstWriteAt(s, k) else k == |s| && NoWrite(s) && use.WriteBody?
  {
    assert (s + [use])[..|s|] == s;
    if k < |s| {
      assert (s + [use])[..k] == s[..k];
    }
  }

  lemma StatusStep(v: Seen, s: seq<Use>, code: int)
    requires After(v, s)
    ensures After(v.(status := code), s + [SetStatus(code)])
  {
    var t := s + [SetStatus(code)];
    assert t[..|s|] == s;
    assert forall j :: 0 <= j < |s| ==> t[j] == s[j];
    LastStatusSnoc(s, SetStatus(code), 0);
    BodiesSnoc(s, SetStatus(code));
    forall k: nat | FirstWriteAt(t, k) ensures AfterWrite(v.(status := code), t, k) {
      FirstWriteSnoc(s, SetStatus(code), k);
      SliceSnoc(s, SetStatus(code), k);
      LastStatusSnoc(s[k..], SetStatus(code), Shown(LastStatus(s[..k], 0)));
      assert AfterWrite(v, s, k);
    }
  }

  /** next follows v by a body write. */
  ghost predicate Written(v: Seen, next: Seen, use: Use) {
    var refused := v.writeErr || (!v.wroteHeader && !Valid(next.status));
    && use.WriteBody? && next.wroteHeader
    && next.status == (if v.wroteHeader then v.status else Shown(v.status))
    && next.events == v.events + (if v.wroteHeader then [] else Headers(next.status))
       + (if refused then [] else [Body(use.data)])
    && next.size == v.size + (if refused then 0 else use.n)
    && next.writeErr == (refused || use.fails)
  }

  lemma FirstWriteStep(v: Seen, next: Seen, s: seq<Use>, use: Use)
    requires After(v, s) && NoWrite(s) && Written(v, next, use)
    ensures AfterWrite(next, s + [use], |s|)
  {
    BodiesNone(s);
    BodiesSnoc(s, use);
    SliceSnoc(s, use, |s|);
    assert s[|s|..] == [] && s[..|s|] == s;
    LastStatusSnoc([], use, Shown(LastStatus(s, 0)));
    assert [] + [use] == [use];
  }

  lemma LaterWriteStep(v: Seen, next: Seen, s: seq<Use>, use: Use, k: nat)
    requires k <= |s| && AfterWrite(v, s, k) && Written(v, next, use)
    ensures AfterWrite(next, s + [use], k)
  {
    BodiesSnoc(s, use);
    SliceSnoc(s, use, k);
    LastStatusSnoc(s[k..], use, Shown(LastStatus(s[..k], 0)));
  }

  lemma WriteStep(v: Seen, next: Seen, s: seq<Use>, use: Use)
    requires After(v, s) && Written(v, next, use)
    ensures After(next, s + [use])
  {
    BodiesSnoc(s, use);
    assert (s + [use])[|s|] == use;
    forall k: nat | FirstWriteAt(s + [use], k) ensures AfterWrite(next, s + [use], k) {
      FirstWriteSnoc(s, use, k);
      SliceSnoc(s, use, k);
      if k == |s| {
        FirstWriteStep(v, next, s, use);
      } else {
        LaterWriteStep(v, next, s, use, k);
      }
    }
  }

  // ---------------------------------------------------------------- the wrapper

  class Wrapper {
    const w: Underlying
    var status: int
    var size: nat
    var wroteHeader: bool
    var writeErr: bool

    constructor (w: Underlying)
      ensures this.w == w && status == 0 && size == 0 && !wroteHeader && !writeErr
    {
      this.w := w;
      status, size, wroteHeader, writeErr := 0, 0, false, false;
    }

    method FlushHeader()
      modifies this, w
      ensures wroteHeader && status == Shown(old(status)) && size == old(size)
      ensures w.events == old(w.events) + Headers(status)
      ensures writeErr == (old(writeErr) || !Valid(status))
    {
      if status == 0 {
        status := OK;
      } else if status < 100 || status > 999 {
        w.WriteHeader(INTERNAL_SERVER_ERROR);
        writeErr := true;
      }
      w.WriteHeader(status);
      wroteHeader := true;
    }

    method WriteHeader(statusCode: int)
      modifies this`status
      ensures status == statusCode
    {
      status := statusCode;
    }

    method Write(data: string, n: nat, fails: bool) returns (written: nat, failed: bool)
      modifies this, w
      ensures wroteHeader
      ensures status == if old(wroteHeader) then old(status) else Shown(old(status))
      ensures var refused := old(writeErr) || (!old(wroteHeader) && !Valid(status));
        && w.events == old(w.events) + (if old(wroteHeader) then [] else Headers(status))
           + (if refused then [] else [Body(data)])
        && size == old(size) + (if refused then 0 else n)
        && writeErr == (refused || fails)
        && (written, failed) == if refused then (0, true) else (n, fails)
    {
      if !wroteHeader {
        FlushHeader();
      }
      if writeErr {
        return 0, true;
      }
      w.Write(data);
      size := size + n;
      writeErr := fails;
      return n, fails;
    }

    ghost function View(): Seen
      reads this, w
    {
      Seen(w.events, status, size, wroteHeader, writeErr)
    }

    /** One use of the writer by the handler, after the uses s. */
    method Step(use: Use, ghost s: seq<Use>)
      requires After(View(), s)
      modifies this, w
      ensures After(View(), s + [use])
    {
      ghost var before := View();
      match use
      case SetStatus(code) =>
        WriteHeader(code);
        StatusStep(before, s, code);
      case WriteBody(data, n, fails) =>
        var _, _ := Write(data, n, fails);
        WriteStep(before, View(), s, use);
    }
  }

  // ---------------------------------------------------------------- the request

  /** Everything that arrives for a handler that makes the uses s and then returns or panics. */
  ghost predicate Served(s: seq<Use>, panics: bool, events: seq<Event>, size: nat) {
    && (forall k: nat :: FirstWriteAt(s, k) ==> ArrivedAfterWrite(s, k, events, size))
    && (NoWrite(s) ==> size == 0)
    && (NoWrite(s) ==> events == if panics then [Header(INTERNAL_SERVER_ERROR)] else Headers(Shown(LastStatus(s, 0))))
  }

  /** The status that the response line of the log shows. */
  ghost predicate Logged(s: seq<Use>, status: int) {
    && (forall k: nat :: FirstWriteAt(s, k) ==> status == LastStatus(s[k..], Shown(LastStatus(s[..k], 0))))
    && (NoWrite(s) ==> status == Shown(LastStatus(s, 0)))
  }

  lemma {:induction false} SomeFirstWrite(s: seq<Use>)
    ensures NoWrite(s) || exists k: nat :: FirstWriteAt(s, k)
  {
    if s != [] {
      var front := s[..|s| - 1];
      SomeFirstWrite(front);
      if NoWrite(front) {
        assert s[|s| - 1].WriteBody? ==> FirstWriteAt(s, |s| - 1);
      } else {
        var k: nat :| FirstWriteAt(front, k);
        assert s[..k] == front[..k];
        assert FirstWriteAt(s, k);
      }
    }
  }

  method ServeHTTP(w: Underlying, s: seq<Use>, panics: bool) returns (loggedStatus: int, size: nat)
    requires w.events == []
    modifies w
    ensures Served(s, panics, w.events, size)
    ensures !panics ==> Logged(s, loggedStatus)
  {
    var rw := new Wrapper(w);
    for i := 0 to |s|
      invariant rw.w == w && After(rw.View(), s[..i])
    {
      assert s[..i + 1] == s[..i] + [s[i]];
      rw.Step(s[i], s[..i]);
    }
    assert s[..|s|] == s;
    SomeFirstWrite(s);
    if panics {
      if !rw.wroteHeader {
        rw.w.WriteHeader(INTERNAL_SERVER_ERROR);
      }
    } else if !rw.wroteHeader {
      rw.FlushHeader();
    }
    return rw.status, rw.size;
  }

  /** The bodies that go through and their byte counts, read from the front: every body write
      until one fails, and that one. */
  function Through(s: seq<Use>): seq<Event> {
    if s == [] then []
    else if s[0].SetStatus? then Through(s[1..])
    else [Body(s[0].data)] + if s[0].fails then [] else Through(s[1..])
  }

  function Count(s: seq<Use>): nat {
    if s == [] then 0
    else if s[0].SetStatus? then Count(s[1..])
    else s[0].n + if s[0].fails then 0 else Count(s[1..])
  }

  lemma {:induction false} ThroughSnoc(s: seq<Use>, use: Use)
    ensures Through(s + [use]) == Through(s) + if use.WriteBody? && Healthy(s) then [Body(use.data)] else []
    ensures Count(s + [use]) == Count(s) + if use.WriteBody? && Healthy(s) then use.n else 0
  {
    if s == [] {
      assert [] + [use] == [use] && [use][1..] == [];
    } else {
      assert (s + [use])[1..] == s[1..] + [use];
      assert s == [s[0]] + s[1..];
      ThroughSnoc(s[1..], use);
    }
  }

  lemma {:induction false} BodiesExactly(s: seq<Use>)
    ensures Bodies(s) == Through(s) && Bytes(s) == Count(s)
  {
    if s != [] {
      var front := s[..|s| - 1];
      BodiesExactly(front);
      ThroughSnoc(front, s[|s| - 1]);
      assert s == front + [s[|s| - 1]];
    }
  }

  function HeaderCount(events: seq<Event>): nat {
    if events == [] then 0 else (if events[0].Header? then 1 else 0) + HeaderCount(events[1..])
  }

  lemma {:induction false} BodiesAreBodies(s: seq<Use>)
    ensures forall i :: 0 <= i < |Bodies(s)| ==> Bodies(s)[i].Body?
  {
    if s != [] {
      BodiesAreBodies(s[..|s| - 1]);
    }
  }

  lemma {:induction false} NoHeaders(events: seq<Event>)
    requires forall i :: 0 <= i < |events| ==> events[i].Body?
    ensures HeaderCount(events) == 0
  {
    if events != [] {
      NoHeaders(events[1..]);
    }
  }

  /** The status in force when the header goes out: at the first body write, or at the end. */
  ghost predicate Effective(s: seq<Use>, code: int) {
    && (forall k: nat :: FirstWriteAt(s, k) ==> code == Shown(LastStatus(s[..k], 0)))
    && (NoWrite(s) ==> code == Shown(LastStatus(s, 0)))
  }

  /** For every handler, panicking or not: exactly one header arrives, first of all, unless
      the status in force is neither 0 nor in 100..999 and goes out, in which case two arrive
      and no body. */
  lemma OneHeaderExactly(s: seq<Use>, panics: bool, events: seq<Event>, size: nat, code: int)
    requires Served(s, panics, events, size) && Effective(s, code)
    ensures |events| > 0 && events[0].Header?
    ensures HeaderCount(events) == 1 <==> 100 <= code <= 999 || (panics && NoWrite(s))
    ensures HeaderCount(events) == 1 ==>
      events[0] == Header(if panics && NoWrite(s) then 500 else code) &&
      forall i :: 1 <= i < |events| ==> events[i].Body?
    ensures HeaderCount(events) == 1 ==> events[1..] == Through(s) && size == Count(s)
    ensures HeaderCount(events) != 1 ==> events == [Header(500), Header(code)] && size == 0
  {
    BodiesExactly(s);
    if NoWrite(s) {
      BodiesNone(s);
    }
    SomeFirstWrite(s);
    var rest := if |events| > 0 then events[1..] else [];
    assert events != [] ==> events == [events[0]] + rest;
    if NoWrite(s) {
      assert HeaderCount(rest) == |rest|;
    } else {
      var k: nat :| FirstWriteAt(s, k);
      assert ArrivedAfterWrite(s, k, events, size);
      if Valid(code) {
        BodiesAreBodies(s);
        assert rest == Bodies(s);
        NoHeaders(rest);
      } else {
        assert events == [Header(INTERNAL_SERVER_ERROR), Header(code)];
        assert HeaderCount(rest) == 1;
      }
    }
  }

  /** Use j sets a status, and no later use does. */
  ghost predicate LastSet(s: seq<Use>, j: nat) {
    j < |s| && s[j].SetStatus? && forall i :: j < i < |s| ==> !s[i].SetStatus?
  }

  lemma {:induction false} LastStatusExactly(s: seq<Use>, default: int)
    ensures (forall i :: 0 <= i < |s| ==> !s[i].SetStatus?) ==> LastStatus(s, default) == default
    ensures forall j: nat :: LastSet(s, j) ==> LastStatus(s, default) == s[j].code
    ensures (forall i :: 0 <= i < |s| ==> !s[i].SetStatus?) || exists j: nat :: LastSet(s, j)
  {
    if s != [] {
      var front := s[..|s| - 1];
      LastStatusExactly(front, default);
      if s[|s| - 1].SetStatus? {
        assert LastSet(s, |s| - 1);
      } else {
        forall j: nat | LastSet(s, j) ensures LastSet(front, j) {
        }
        if j: nat :| LastSet(front, j) {
          assert LastSet(s, j);
        }
      }
    }
  }

  /** Use j is the last before the first body write, or of all if there is none, to set the status. */
  ghost predicate SetInTime(s: seq<Use>, j: nat) {
    && j < |s| && s[j].SetStatus? && NoWrite(s[..j])
    && forall i :: j < i < |s| && s[i].SetStatus? ==> !NoWrite(s[..i])
  }

  /** The uses before the first body write are those after which there has been none. */
  lemma InFront(s: seq<Use>, k: nat, i: nat)
    requires k <= |s| && NoWrite(s[..k]) && (k < |s| ==> s[k].WriteBody?) && i <= |s|
    ensures NoWrite(s[..i]) <==> i <= k
  {
    if i <= k {
      assert forall j :: 0 <= j < i ==> s[..i][j] == s[..k][j];
    } else {
      assert s[..i][k] == s[k];
    }
  }

  lemma SetInTimeExactly(s: seq<Use>, k: nat, j: nat)
    requires k <= |s| && NoWrite(s[..k]) && (k < |s| ==> s[k].WriteBody?)
    ensures SetInTime(s, j) <==> LastSet(s[..k], j)
  {
    forall i: nat | i <= |s| ensures NoWrite(s[..i]) <==> i <= k {
      InFront(s, k, i);
    }
    assert forall i :: 0 <= i < k ==> s[..k][i] == s[i];
  }

  /** The status in force is the one set last before the first body write; 200 if that is 0 or
      there is none. */
  lemma EffectiveExactly(s: seq<Use>, code: int)
    requires Effective(s, code)
    ensures forall j: nat :: SetInTime(s, j) ==> code == if s[j].code == 0 then 200 else s[j].code
    ensures (forall j: nat :: !SetInTime(s, j)) ==> code == 200
  {
    SomeFirstWrite(s);
    assert s[..|s|] == s;
    var k: nat := |s|;
    if !NoWrite(s) {
      k :| FirstWriteAt(s, k);
    }
    assert code == Shown(LastStatus(s[..k], 0));
    LastStatusExactly(s[..k], 0);
    forall j: nat ensures SetInTime(s, j) <==> LastSet(s[..k], j) {
      SetInTimeExactly(s, k, j);
    }
  }

  /** Use j sets the status for the last time, after some body write. */
  ghost predicate SetLate(s: seq<Use>, j: nat) {
    LastSet(s, j) && exists i :: 0 <= i < j && s[i].WriteBody?
  }

  /** Setting the status after the first body write is what changes it from the one in force. */
  lemma LoggedExactly(s: seq<Use>, status: int, code: int)
    requires Logged(s, status) && Effective(s, code)
    ensures forall j: nat :: SetLate(s, j) ==> status == s[j].code
    ensures (forall j: nat :: !SetLate(s, j)) ==> status == code
  {
    SomeFirstWrite(s);
    if k: nat :| FirstWriteAt(s, k) {
      LastStatusExactly(s[k..], code);
      forall j: nat | SetLate(s, j) ensures status == s[j].code {
        assert k < j && s[k..][j - k] == s[j];
        assert forall i :: j - k < i < |s[k..]| ==> s[k..][i] == s[i + k];
        assert LastSet(s[k..], j - k);
      }
      if j: nat :| LastSet(s[k..], j) {
        assert s[k..][j] == s[j + k];
        forall i | j + k < i < |s| ensures !s[i].SetStatus? {
          assert s[k..][i - k] == s[i];
        }
        assert LastSet(s, j + k) && s[k].WriteBody? && j > 0;
        assert SetLate(s, j + k);
      }
    }
  }

  /** For a handler that does not panic the log shows the status that was sent in exactly
      these cases: the last setting of the status follows some body write and gives the very
      status that was sent, or none does and the status in force was valid.  Otherwise the log is
      wrong, an invalid status being logged as it is although 500 goes out first. */
  lemma LogAgreesExactly(s: seq<Use>, events: seq<Event>, size: nat, status: int, code: int)
    requires Served(s, false, events, size) && Logged(s, status) && Effective(s, code)
    ensures |events| > 0
    ensures events[0] == Header(if 100 <= code <= 999 then code else 500)
    ensures events[0] == Header(status) <==>
      (exists j: nat :: SetLate(s, j) && s[j].code == if 100 <= code <= 999 then code else 500) ||
      ((forall j: nat :: !SetLate(s, j)) && 100 <= code <= 999)
  {
    OneHeaderExactly(s, false, events, size, code);
    LoggedExactly(s, status, code);
  }
}
