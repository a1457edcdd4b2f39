/**
  * The whole life of a connection: reads, operations on the output streams, settings of the
  * application status and attempts to close in any order, before and after a read that fails.
  */
module Lives {
  import opened Applications
  import opened Basics
  import opened BaseConnection
  import opened Connections
  import opened Input
  import opened InputRuns
  import opened Output
  import opened Records
  import opened Sessions
  import opened StreamBuffers

  /** A step of an application. */
  datatype Act = Do(op: Op) | SetStatus(status: int) | GetByte | TryClose

  /**
    * What the bytes and the steps determine. Once a read has failed by an exception the stream
    * that drives the buffer is bad: it asks for no more characters.
    */
  datatype Story = Story(
    session: Session, status: int, view: View, deaf: bool, records: seq<Record>, taken: seq<Pull>)

  function Begun(s: Session, status: int, v: View): Story {
    Story(s, status, v, false, [], [])
  }

  function AfterTake(st: Story): Story {
    var (r, w) := Draw(st.view);
    if Goes(r) then st.(view := w, taken := st.taken + [r])
    else st.(deaf := true, records := st.records + RepliesOf(st.view), taken := st.taken + [r])
  }

  /** One step; a close that is refused changes nothing. */
  function Next(st: Story, act: Act): (r: Story)
    requires st.session.Valid()
    ensures r.session.Valid() && r.session.id == st.session.id
  {
    match act
    case Do(op) =>
      var o := Sessions.Perform(st.session, op);
      st.(session := o.session, records := st.records + o.records)
    case SetStatus(n) => st.(status := n)
    case GetByte => if st.deaf then st else AfterTake(st)
    case TryClose => st
  }

  function Lived(st: Story, acts: seq<Act>): (r: Story)
    requires st.session.Valid()
    ensures r.session.Valid() && r.session.id == st.session.id
  {
    if acts == [] then st else Next(Lived(st, acts[..|acts| - 1]), acts[|acts| - 1])
  }

  /** All records of a life that a close has ended. */
  function AllRecords(st: Story): seq<Record>
    requires st.session.Valid()
  {
    st.records + CloseBoth(st.session, st.status)
  }

  /** The operations among the steps, in order. */
  function OpsOf(acts: seq<Act>): seq<Op> {
    if acts == [] then []
    else
      var last := acts[|acts| - 1];
      OpsOf(acts[..|acts| - 1]) + if last.Do? then [last.op] else []
  }

  /** The last status set. */
  function StatusAfter(status: int, acts: seq<Act>): int {
    if acts == [] then status
    else
      var last := acts[|acts| - 1];
      if last.SetStatus? then last.status else StatusAfter(status, acts[..|acts| - 1])
  }

  // ---------------------------------------------------------------------------
  // What is on the wire of a whole life
  // ---------------------------------------------------------------------------

  /** How many END_REQUEST records of a request there are. */
  function EndsOf(rs: seq<Record>, id: nat): nat {
    if rs == [] then 0
    else EndsOf(rs[..|rs| - 1], id) + if rs[|rs| - 1].recordType == END_REQUEST && rs[|rs| - 1].id == id then 1 else 0
  }

  lemma {:induction false} EndsConcat(a: seq<Record>, b: seq<Record>, id: nat)
    ensures EndsOf(a + b, id) == EndsOf(a, id) + EndsOf(b, id)
  {
    if b == [] {
      assert a + b == a;
    } else {
      EndsConcat(a, b[..|b| - 1], id);
      assert (a + b)[..|a + b| - 1] == a + b[..|b| - 1];
    }
  }

  lemma {:induction false} NoEnds(rs: seq<Record>, id: nat)
    requires AllStream(id, rs)
    ensures EndsOf(rs, id) == 0
  {
    if rs != [] {
      NoEnds(rs[..|rs| - 1], id);
      assert StreamRecord(id, rs[|rs| - 1]);
    }
  }

  lemma {:induction false} EndsOfCopies(r: Record, n: nat, id: nat)
    requires r.recordType == END_REQUEST
    ensures EndsOf(Copies(r, n), id) == if r.id == id then n else 0
  {
    if n > 0 {
      EndsOfCopies(r, n - 1, id);
      assert Copies(r, n)[..n - 1] == Copies(r, n - 1);
    }
  }

  /** The next header rejects the request `id`: a record of the wrong type, or a further BEGIN_REQUEST. */
  predicate Rejects(v: View, id: nat) {
    && v.tail.ending.At? && v.tail.ending.header.RequestId() == id
    && (v.tail.ending.verdict.WrongType?
        || (v.tail.ending.verdict.Foreign? && v.tail.ending.header.recordType == BEGIN_REQUEST))
  }

  lemma EndsOfReplies(v: View, id: nat)
    ensures EndsOf(RepliesOf(v), id) > 0 <==> Rejects(v, id)
    ensures AllValid(RepliesOf(v)) && forall kind: StreamType :: Only(RepliesOf(v), kind) == []
  {
    var replies := RepliesOf(v);
    if v.tail.ending.At? {
      var h := v.tail.ending.header;
      assert [Rejection(h)] == Copies(Rejection(h), 1);
      EndsOfCopies(Rejection(h), |replies|, id);
    }
    forall kind: StreamType ensures Only(replies, kind) == [] {
      OnlyOthers(replies, kind);
    }
  }

  lemma {:induction false} OnlyOthers(rs: seq<Record>, kind: StreamType)
    requires forall i :: 0 <= i < |rs| ==> rs[i].recordType == END_REQUEST
    ensures Only(rs, kind) == []
  {
    if rs != [] {
      OnlyOthers(rs[1..], kind);
    }
  }

  /** Two lists have the same records of each of the two streams. */
  predicate SameStreams(a: seq<Record>, b: seq<Record>) {
    Only(a, StreamType.Out) == Only(b, StreamType.Out) && Only(a, StreamType.Err) == Only(b, StreamType.Err)
  }

  lemma SameStreamsMore(a: seq<Record>, b: seq<Record>, more: seq<Record>)
    requires SameStreams(a, b)
    ensures SameStreams(a + more, b + more)
  {
    OnlyConcat(a, more, StreamType.Out);
    OnlyConcat(a, more, StreamType.Err);
    OnlyConcat(b, more, StreamType.Out);
    OnlyConcat(b, more, StreamType.Err);
  }

  /**
    * A life is a run of its operations, with what a failed read has written at its place: in
    * each of the two streams nothing of that shows, and the session is that of the run.
    */
  predicate IsRun(s: Session, status: int, acts: seq<Act>, st: Story)
    requires s.Valid()
  {
    var o := Run(s, OpsOf(acts));
    && st.session == o.session && st.status == StatusAfter(status, acts) && AllValid(st.records)
    && SameStreams(st.records, o.records)
    && EndsOf(st.records, s.id) == if st.deaf then EndsOf(RepliesOf(st.view), s.id) else 0
  }

  lemma {:induction false} LifeIsRun(s: Session, status: int, v: View, acts: seq<Act>)
    requires s.Valid()
    ensures IsRun(s, status, acts, Lived(Begun(s, status, v), acts))
  {
    if acts != [] {
      var front, act := acts[..|acts| - 1], acts[|acts| - 1];
      LifeIsRun(s, status, v, front);
      StepIsRun(s, status, front, Lived(Begun(s, status, v), front), act);
      assert front + [act] == acts;
    }
  }

  lemma StepIsRun(s: Session, status: int, front: seq<Act>, st: Story, act: Act)
    requires s.Valid() && st.session.Valid() && IsRun(s, status, front, st)
    ensures IsRun(s, status, front + [act], Next(st, act))
  {
    assert (front + [act])[..|front|] == front;
    assert OpsOf(front) + [] == OpsOf(front);
    match act {
      case Do(op) => DoIsRun(s, status, front, st, op);
      case GetByte =>
        if !st.deaf && !Goes(Draw(st.view).0) {
          RepliedIsRun(st, s.id);
        }
      case _ =>
    }
  }

  lemma DoIsRun(s: Session, status: int, front: seq<Act>, st: Story, op: Op)
    requires s.Valid() && st.session.Valid() && IsRun(s, status, front, st)
    ensures var ops := OpsOf(front) + [op]; var o := Run(s, ops); var next := Next(st, Do(op));
            && next.session == o.session && AllValid(next.records)
            && SameStreams(next.records, o.records)
            && EndsOf(next.records, s.id) == EndsOf(st.records, s.id)
  {
    var before, more := Run(s, OpsOf(front)), Sessions.Perform(st.session, op).records;
    RunMore(s, OpsOf(front), op);
    SameStreamsMore(st.records, before.records, more);
    StepIsStream(st.session, op);
    NoEnds(more, s.id);
    EndsConcat(st.records, more, s.id);
  }

  lemma StepIsStream(s: Session, op: Op)
    requires s.Valid()
    ensures AllStream(s.id, Sessions.Perform(s, op).records)
  {
    if !op.Replace? {
      StepKeeps(s, op);
      FramedIsStream(s.LaneOf(op.to), StepOf(s, op).records);
    }
  }

  lemma RepliedIsRun(st: Story, id: nat)
    requires EndsOf(st.records, id) == 0 && AllValid(st.records)
    ensures var all := st.records + RepliesOf(st.view);
            && AllValid(all) && EndsOf(all, id) == EndsOf(RepliesOf(st.view), id)
            && SameStreams(all, st.records)
  {
    var replies := RepliesOf(st.view);
    EndsOfReplies(st.view, id);
    EndsConcat(st.records, replies, id);
    OnlyConcat(st.records, replies, StreamType.Out);
    OnlyConcat(st.records, replies, StreamType.Err);
    assert Only(st.records, StreamType.Out) + [] == Only(st.records, StreamType.Out);
    assert Only(st.records, StreamType.Err) + [] == Only(st.records, StreamType.Err);
  }

  /**
    * The wire of a whole life, whatever its reads met: each of the two streams is on it as if no
    * read had failed, its last record is the END_REQUEST with the last status set, and its bytes
    * determine its records. That END_REQUEST is the only one of the request exactly if no read
    * has met a record of the wrong type, or a further BEGIN_REQUEST, of the same request.
    */
  lemma WholeLife(s: Session, status: int, v: View, acts: seq<Act>)
    requires s.Valid()
    ensures var st := Lived(Begun(s, status, v), acts); var all := AllRecords(st);
            var last := StatusAfter(status, acts); var calm := WholeWire(s, OpsOf(acts), last);
            && SameStreams(all, calm)
            && all != [] && all[|all| - 1] == EndRequest(s.id, last, RequestComplete)
            && Decode(Encode(all)) == Some(all)
            && (EndsOf(all, s.id) == 1 <==> !(st.deaf && Rejects(st.view, s.id)))
  {
    LifeIsRun(s, status, v, acts);
    var st := Lived(Begun(s, status, v), acts);
    var o, close := Run(s, OpsOf(acts)), CloseBoth(st.session, st.status);
    SameStreamsMore(st.records, o.records, close);
    ClosedLife(st);
    EndsOfReplies(st.view, s.id);
  }

  lemma ClosedLife(st: Story)
    requires st.session.Valid() && AllValid(st.records)
    ensures var all, id := AllRecords(st), st.session.id;
            && all != [] && all[|all| - 1] == EndRequest(id, st.status, RequestComplete)
            && Decode(Encode(all)) == Some(all) && EndsOf(all, id) == EndsOf(st.records, id) + 1
  {
    var id, last := st.session.id, EndRequest(st.session.id, st.status, RequestComplete);
    var front := CloseForm(st.session, st.status);
    NoEnds(front, id);
    EndsConcat(st.records, front + [last], id);
    EndsConcat(front, [last], id);
    assert [last][..0] == [] && EndsOf([last], id) == 1;
    DecodeEncode(AllRecords(st));
  }

  /**
    * A read that meets a record of another stream has END_REQUEST sent at once; the close then
    * sends a second one for the same request.
    */
  lemma SecondEnd(s: Session, status: int, v: View)
    requires s.Valid() && !v.ended && v.tail.content == []
    requires v.tail.ending.At? && v.tail.ending.verdict.WrongType? && v.tail.ending.header.RequestId() == s.id
    ensures var st := Lived(Begun(s, status, v), [GetByte]);
            && st.taken == [Threw] && EndsOf(AllRecords(st), s.id) == 2
            && AllRecords(st) == [EndRequest(s.id, 0, CantMpxConn)] + CloseBoth(s, status)
  {
    var begun := Begun(s, status, v);
    assert [GetByte][..0] == [] && Lived(begun, [GetByte]) == Next(begun, GetByte);
    var st := Next(begun, GetByte);
    assert st.records == Copies(EndRequest(s.id, 0, CantMpxConn), 1);
    EndsOfCopies(EndRequest(s.id, 0, CantMpxConn), 1, s.id);
    ClosedLife(st);
  }

  // ---------------------------------------------------------------------------
  // The objects live that way
  // ---------------------------------------------------------------------------

  /**
    * How far an application has come: reads go on; reads have failed and the rest goes on; a
    * close has ended it, or its assertion has; or a read ended the process or never returns.
    */
  datatype Course = Going | Deaf | Closed(r: Closing) | Over

  /** An open connection that has come to `st`, since `wire`. */
  ghost predicate Alive(c: StackedConnection, st: Story, wire: seq<byte>)
    requires st.session.Valid()
    reads c.input, c.output, c.error, c.input.buffer, c.output.buffer, c.error.buffer, c.base, c.base.io
  {
    && c.IsOpen() && c.TheSession() == st.session && c.base.applicationStatus == st.status
    && c.base.io.wire == wire + Encode(st.records)
    && c.input.kind == st.view.src.kind
    && if st.deaf then
         && EndedBy(st, Threw)
         && (c.input.unreadContent > c.input.bufferSize <==> Overlong(st.view))
       else c.input.Reading() && c.input.TheView() == st.view
  }

  /** The last read ended with `r`. */
  predicate EndedBy(st: Story, r: Pull) {
    st.taken != [] && st.taken[|st.taken| - 1] == r
  }

  ghost predicate Stands(c: StackedConnection, course: Course, st: Story, wire: seq<byte>)
    requires st.session.Valid()
    reads c.input, c.output, c.error, c.input.buffer, c.output.buffer, c.error.buffer, c.base, c.base.io
  {
    match course
    case Going => Alive(c, st, wire) && !st.deaf
    case Deaf => Alive(c, st, wire) && st.deaf
    case Closed(r) =>
      && c.IsClosed() && c.base.io.wire == wire + Encode(AllRecords(st))
      && r == if st.deaf && Overlong(st.view) then Failed else Done
    case Over =>
      && st.deaf && (EndedBy(st, Aborted) || EndedBy(st, Stopped) || EndedBy(st, Spins))
      && if EndedBy(st, Spins) then wire + Encode(st.records) <= c.base.io.wire
         else c.base.io.wire == wire + Encode(st.records)
  }

  /** The buffers of a connection are those it had, or new ones of its own. */
  twostate predicate SameObjects(c: StackedConnection)
    reads c.input, c.output, c.error
  {
    c.input.buffer == old(c.input.buffer) && OwnBuffers(c)
  }

  method LiveDo(c: StackedConnection, op: Op, ghost st: Story, ghost wire: seq<byte>)
    requires st.session.Valid() && Alive(c, st, wire)
    modifies c.output, c.error, c.output.buffer, c.error.buffer, c.base.io
    ensures OwnBuffers(c) && Alive(c, Next(st, Do(op)), wire)
  {
    Appended(wire, st.records, Sessions.Perform(st.session, op).records);
    c.Perform(op);
  }

  method LiveTake(c: StackedConnection, ghost st: Story, ghost wire: seq<byte>) returns (course: Course, r: Pull)
    requires st.session.Valid() && Alive(c, st, wire) && !st.deaf
    modifies c.input`get, c.input`bufferEnd, c.input`kind, c.input`unreadContent, c.input`unreadPadding
    modifies c.input`endOfStream, c.input`mustDiscard, c.input.buffer, c.base.io
    ensures Next(st, GetByte).taken == st.taken + [r] && !course.Closed?
    ensures Stands(c, course, Next(st, GetByte), wire)
  {
    Appended(wire, st.records, RepliesOf(st.view));
    r := c.Get();
    course := if Goes(r) then Going else if r.Threw? then Deaf else Over;
  }

  method LiveClose(c: StackedConnection, at: Course, ghost st: Story, ghost wire: seq<byte>) returns (course: Course)
    requires st.session.Valid() && (at.Going? || at.Deaf?) && Stands(c, at, st, wire)
    modifies c.input, c.output, c.error, c.input.buffer, c.output.buffer, c.error.buffer, c.base.io
    ensures SameObjects(c) && Stands(c, course, st, wire)
    ensures course == at || course.Closed?
    ensures course.Closed? <==> MayClose(c.base.role, old(c.input.kind), old(c.input.unreadContent))
  {
    Appended(wire, st.records, CloseBoth(st.session, st.status));
    var r := c.Close();
    course := if r.Refused? then at else Closed(r);
  }

  /** One step, and the outcome of a read if it was one. */
  method Live(c: StackedConnection, act: Act, at: Course, ghost st: Story, ghost wire: seq<byte>)
    returns (course: Course, rs: seq<Pull>)
    requires st.session.Valid() && (at.Going? || at.Deaf?) && Stands(c, at, st, wire)
    modifies c.input, c.output, c.error, c.input.buffer, c.output.buffer, c.error.buffer, c.base.io
    modifies c.base`applicationStatus
    ensures SameObjects(c) && Stands(c, course, Next(st, act), wire) && Next(st, act).taken == st.taken + rs
    ensures course.Closed? ==> act.TryClose?
    ensures course.Over? ==> act.GetByte?
    ensures act.TryClose? ==>
              (course.Closed? <==> MayClose(c.base.role, old(c.input.kind), old(c.input.unreadContent)))
    ensures act.TryClose? && !course.Closed? ==> c.base.role.Filter? && st.view.src.kind.In?
  {
    course, rs := at, [];
    assert st.taken + [] == st.taken;
    match act {
      case Do(op) => LiveDo(c, op, st, wire);
      case SetStatus(n) => c.base.applicationStatus := n;
      case GetByte =>
        if at.Going? {
          var r;
          course, r := LiveTake(c, st, wire);
          rs := [r];
        }
      case TryClose => course := LiveClose(c, at, st, wire);
    }
  }

  lemma OneMoreAct(st: Story, acts: seq<Act>, n: nat)
    requires st.session.Valid() && n < |acts|
    ensures Lived(st, acts[..n + 1]) == Next(Lived(st, acts[..n]), acts[n])
  {
    assert acts[..n + 1][..n] == acts[..n];
  }

  /** Attempts to close among the first `n` steps were made by a Filter whose standard input had not ended. */
  predicate RefusedIn(role: Role, st: Story, acts: seq<Act>, n: nat)
    requires st.session.Valid() && n <= |acts|
  {
    forall i :: 0 <= i < n && acts[i].TryClose? ==> role.Filter? && Lived(st, acts[..i]).view.src.kind.In?
  }

  /**
    * Steps in any order, up to the first close that is not refused or a read that does not come
    * back. However many closes were refused and whether or not a read has failed, the objects
    * have come to what the bytes and the steps determine, and so has the wire. Only a Filter is
    * ever refused, and only until the end of its standard input has been seen.
    */
  method LiveAll(c: StackedConnection, acts: seq<Act>) returns (course: Course, taken: seq<Pull>, n: nat)
    requires c.IsOpen() && c.input.Reading()
    modifies c.input, c.output, c.error, c.input.buffer, c.output.buffer, c.error.buffer, c.base.io
    modifies c.base`applicationStatus
    ensures n <= |acts| && (course.Going? || course.Deaf? ==> n == |acts|)
    ensures var st := Lived(Begun(old(c.TheSession()), old(c.base.applicationStatus), old(c.input.TheView())),
              acts[..n]);
            Stands(c, course, st, old(c.base.io.wire)) && taken == st.taken
    ensures course.Closed? ==> 0 < n && acts[n - 1].TryClose?
    ensures course.Over? ==> 0 < n && acts[n - 1].GetByte?
    ensures RefusedIn(c.base.role,
                      Begun(old(c.TheSession()), old(c.base.applicationStatus), old(c.input.TheView())),
                      acts, if course.Closed? then n - 1 else n)
  {
    ghost var st, wire := Begun(c.TheSession(), c.base.applicationStatus, c.input.TheView()), c.base.io.wire;
    assert wire + [] == wire;
    course, taken, n := LiveFrom(c, acts, st, wire);
  }

  /** Step number `n`. */
  method LiveAt(c: StackedConnection, acts: seq<Act>, n: nat, at: Course, ghost st: Story, ghost wire: seq<byte>,
      taken: seq<Pull>)
    returns (course: Course, taken': seq<Pull>)
    requires st.session.Valid() && n < |acts| && (at.Going? || at.Deaf?)
    requires Stands(c, at, Lived(st, acts[..n]), wire) && taken == Lived(st, acts[..n]).taken
    requires RefusedIn(c.base.role, st, acts, n)
    modifies c.input, c.output, c.error, c.input.buffer, c.output.buffer, c.error.buffer, c.base.io
    modifies c.base`applicationStatus
    ensures SameObjects(c) && Stands(c, course, Lived(st, acts[..n + 1]), wire)
              && taken' == Lived(st, acts[..n + 1]).taken
    ensures course.Closed? ==> acts[n].TryClose?
    ensures course.Over? ==> acts[n].GetByte?
    ensures !course.Closed? ==> RefusedIn(c.base.role, st, acts, n + 1)
  {
    OneMoreAct(st, acts, n);
    var rs;
    course, rs := Live(c, acts[n], at, Lived(st, acts[..n]), wire);
    taken' := taken + rs;
  }

  method LiveFrom(c: StackedConnection, acts: seq<Act>, ghost st: Story, ghost wire: seq<byte>)
    returns (course: Course, taken: seq<Pull>, n: nat)
    requires st.session.Valid() && Stands(c, Going, st, wire) && st.taken == []
    modifies c.input, c.output, c.error, c.input.buffer, c.output.buffer, c.error.buffer, c.base.io
    modifies c.base`applicationStatus
    ensures n <= |acts| && (course.Going? || course.Deaf? ==> n == |acts|)
    ensures Stands(c, course, Lived(st, acts[..n]), wire) && taken == Lived(st, acts[..n]).taken
    ensures course.Closed? ==> 0 < n && acts[n - 1].TryClose?
    ensures course.Over? ==> 0 < n && acts[n - 1].GetByte?
    ensures RefusedIn(c.base.role, st, acts, if course.Closed? then n - 1 else n)
  {
    course, taken, n := Going, [], 0;
    while n < |acts| && (course.Going? || course.Deaf?)
      invariant n <= |acts| && SameObjects(c)
      invariant Stands(c, course, Lived(st, acts[..n]), wire) && taken == Lived(st, acts[..n]).taken
      invariant course.Closed? ==> 0 < n && acts[n - 1].TryClose?
      invariant course.Over? ==> 0 < n && acts[n - 1].GetByte?
      invariant RefusedIn(c.base.role, st, acts, if course.Closed? then n - 1 else n)
      decreases |acts| - n
    {
      course, taken := LiveAt(c, acts, n, course, st, wire, taken);
      n := n + 1;
    }
  }
}
