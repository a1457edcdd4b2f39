/**
  * Whole runs of an application on the two output streams of a connection, in any order of
  * puts, bulk writes, flushes and replaced buffers, up to and including the close.
  */
module Sessions {
  import opened Alignment
  import opened Basics
  import opened Input
  import opened Output
  import opened Records

  datatype Channel = Stdout | Stderr
  {
    function Kind(): StreamType {
      if Stdout? then StreamType.Out else StreamType.Err
    }
  }

  /** What setbuf asserts of the size of a buffer. */
  type BufferSize = n: nat | 2048 <= n <= 65528 witness 2048

  datatype Op =
    | Put(to: Channel, b: byte)
    | Write(to: Channel, bs: seq<byte>)
    | Flush(to: Channel)
    | Replace(to: Channel, size: BufferSize)

  /** What setbuf makes of a size. */
  function Usable(size: BufferSize): (usable: nat)
    ensures IsLargestMultipleOf8(usable, size) && 2048 <= usable <= 65528
  {
    size - size % 8
  }

  /** Both writers of a connection and the usable sizes of their buffers. */
  datatype Session = Session(id: nat, out: Writer, err: Writer, outSize: nat, errSize: nat)
  {
    predicate Valid() {
      && 0 < id <= MAX_ID && LaneOf(Stdout).Valid() && LaneOf(Stderr).Valid()
      && |out.held| <= LaneOf(Stdout).cap && |err.held| <= LaneOf(Stderr).cap
    }

    function SizeOf(c: Channel): nat {
      if c.Stdout? then outSize else errSize
    }

    function LaneOf(c: Channel): Lane {
      LaneFor(c, id, SizeOf(c))
    }

    function WriterOf(c: Channel): Writer {
      if c.Stdout? then out else err
    }

    function With(c: Channel, w: Writer, size: nat): Session {
      if c.Stdout? then this.(out := w, outSize := size) else this.(err := w, errSize := size)
    }
  }

  /** The stream of a channel in a buffer of a usable size. */
  function LaneFor(c: Channel, id: nat, size: nat): Lane {
    Lane(c.Kind(), id, if size < 9 then 0 else size - 9)
  }

  datatype Outcome = Outcome(session: Session, records: seq<Record>)

  /** One operation on the stream it is for. A new buffer starts empty. */
  function StepOn(lane: Lane, w: Writer, op: Op): Step {
    match op
    case Put(_, b) => PutByte(lane, w, b)
    case Write(_, bs) => PutBytes(lane, w, bs)
    case Flush(_) => Overflowed(lane, w, [])
    case Replace(_, _) => Step(Writer([], w.sent), [])
  }

  function StepOf(s: Session, op: Op): Step {
    StepOn(s.LaneOf(op.to), s.WriterOf(op.to), op)
  }

  function SizeAfter(s: Session, op: Op): nat {
    if op.Replace? then Usable(op.size) else s.SizeOf(op.to)
  }

  function Perform(s: Session, op: Op): (o: Outcome)
    requires s.Valid()
    ensures o.session.Valid() && o.session.id == s.id
  {
    var step := StepOf(s, op);
    StepHolds(s, op);
    Outcome(s.With(op.to, step.writer, SizeAfter(s, op)), step.records)
  }

  /** The records a run sends before the close, and the writers it leaves. */
  function Run(s: Session, ops: seq<Op>): (o: Outcome)
    requires s.Valid()
    ensures o.session.Valid() && o.session.id == s.id
  {
    if ops == [] then Outcome(s, [])
    else
      var before := Run(s, ops[..|ops| - 1]);
      var last := Perform(before.session, ops[|ops| - 1]);
      Outcome(last.session, before.records + last.records)
  }

  lemma RunMore(s: Session, ops: seq<Op>, op: Op)
    requires s.Valid()
    ensures var o := Run(s, ops); var p := Perform(o.session, op);
            Run(s, ops + [op]) == Outcome(p.session, o.records + p.records)
  {
    assert (ops + [op])[..|ops|] == ops;
  }

  /** The close: first `err`, then `out`. */
  function CloseBoth(s: Session, status: int): seq<Record>
    requires s.Valid()
  {
    ClosingRecords(s.LaneOf(Stderr), s.err, status) + ClosingRecords(s.LaneOf(Stdout), s.out, status)
  }

  function WholeWire(s: Session, ops: seq<Op>, status: int): seq<Record>
    requires s.Valid()
  {
    Run(s, ops).records + CloseBoth(Run(s, ops).session, status)
  }

  function Start(id: nat, size: nat): Session {
    Session(id, Idle, Idle, size, size)
  }

  /** The bytes that the operations hand to one stream, in order. */
  function Accepted(ops: seq<Op>, c: Channel): seq<byte> {
    if ops == [] then []
    else
      var op := ops[|ops| - 1];
      Accepted(ops[..|ops| - 1], c) + if op.to == c then BytesOf(op) else []
  }

  function BytesOf(op: Op): seq<byte> {
    match op
    case Put(_, b) => [b]
    case Write(_, bs) => bs
    case _ => []
  }

  /**
    * What a stream keeps of the bytes it held at first and was given since: a setbuf takes the
    * bytes away that are held at that moment.
    */
  function Kept(s: Session, ops: seq<Op>, c: Channel): seq<byte>
    requires s.Valid()
  {
    if ops == [] then s.WriterOf(c).held
    else
      var front, op := ops[..|ops| - 1], ops[|ops| - 1];
      if op.to != c then Kept(s, front, c)
      else if op.Replace? then Shortened(Kept(s, front, c), |Run(s, front).session.WriterOf(c).held|)
      else Kept(s, front, c) + BytesOf(op)
  }

  function Shortened(s: seq<byte>, n: nat): seq<byte> {
    if n <= |s| then s[..|s| - n] else []
  }

  /** The records of one stream. */
  function Only(rs: seq<Record>, kind: StreamType): seq<Record> {
    if rs == [] then []
    else (if rs[0].recordType == kind.Code() then [rs[0]] else []) + Only(rs[1..], kind)
  }

  /** A record of a stream as an output buffer frames it: not empty, fitting, aligned. */
  predicate Framed(lane: Lane, r: Record) {
    IsOwn(Source(lane.kind, lane.id, lane.cap + 1), r) && |r.Bytes()| % 8 == 0
  }

  predicate AllFramed(lane: Lane, rs: seq<Record>) {
    forall i :: 0 <= i < |rs| ==> Framed(lane, rs[i])
  }

  // ---------------------------------------------------------------------------
  // One stream
  // ---------------------------------------------------------------------------

  /** A step sends framed records, keeps what it does not send, and remembers having sent. */
  predicate Keeps(lane: Lane, w: Writer, bs: seq<byte>, step: Step) {
    && Contents(step.records) + step.writer.held == w.held + bs
    && AllFramed(lane, step.records)
    && step.writer.sent == (w.sent || step.records != [])
    && |step.writer.held| <= lane.cap
  }

  lemma {:induction false} ContentsConcat(a: seq<Record>, b: seq<Record>)
    ensures Contents(a + b) == Contents(a) + Contents(b)
  {
    if a == [] {
      assert a + b == b;
    } else {
      ContentsConcat(a[1..], b);
      assert (a + b)[1..] == a[1..] + b && (a + b)[0] == a[0];
      Records.Associate(a[0].content, Contents(a[1..]), Contents(b));
    }
  }

  lemma OverflowKeeps(lane: Lane, w: Writer, extra: seq<byte>)
    requires lane.Valid() && |w.held| <= lane.cap && |extra| <= 1 && (extra != [] ==> w.held != [])
    ensures Keeps(lane, w, extra, Overflowed(lane, w, extra))
  {
    if w.held != [] {
      var r := Frame(lane, w.held + extra);
      FrameFits(lane, w.held + extra);
      assert Contents([r]) == r.content + Contents([]);
    }
  }

  /**
    * overflow with a character ignores it when the put area is empty. Within the reach of the
    * put area it keeps the character exactly when something is held; sputc and xsputn only get
    * there with a full put area.
    */
  lemma OverflowNeedsHeld(lane: Lane, w: Writer, b: byte)
    requires lane.Valid() && |w.held| <= lane.cap
    ensures Keeps(lane, w, [b], Overflowed(lane, w, [b])) <==> w.held != []
  {
    if w.held != [] {
      OverflowKeeps(lane, w, [b]);
    } else {
      assert Contents([]) + w.held != w.held + [b];
    }
  }

  lemma PutKeeps(lane: Lane, w: Writer, b: byte)
    requires lane.Valid() && |w.held| <= lane.cap
    ensures Keeps(lane, w, [b], PutByte(lane, w, b))
  {
    if |w.held| == lane.cap {
      OverflowKeeps(lane, w, [b]);
    }
  }

  lemma {:induction false} PutBytesKeeps(lane: Lane, w: Writer, bs: seq<byte>)
    requires lane.Valid() && |w.held| <= lane.cap
    ensures Keeps(lane, w, bs, PutBytes(lane, w, bs))
    decreases |bs|
  {
    if bs == [] {
      assert w.held + bs == w.held;
    } else {
      var first := PutByte(lane, w, bs[0]);
      PutKeeps(lane, w, bs[0]);
      PutBytesKeeps(lane, first.writer, bs[1..]);
      KeepsTwice(lane, w, [bs[0]], first, bs[1..], PutBytes(lane, first.writer, bs[1..]));
      assert [bs[0]] + bs[1..] == bs;
    }
  }

  lemma KeepsTwice(lane: Lane, w: Writer, a: seq<byte>, s: Step, b: seq<byte>, t: Step)
    requires Keeps(lane, w, a, s) && Keeps(lane, s.writer, b, t)
    ensures Keeps(lane, w, a + b, Step(t.writer, s.records + t.records))
  {
    ContentsConcat(s.records, t.records);
    Records.Associate(Contents(s.records), Contents(t.records), t.writer.held);
    Records.Associate(Contents(s.records), s.writer.held, b);
    Records.Associate(w.held, a, b);
  }

  lemma StepKeeps(s: Session, op: Op)
    requires s.LaneOf(op.to).Valid() && |s.WriterOf(op.to).held| <= s.LaneOf(op.to).cap && !op.Replace?
    ensures Keeps(s.LaneOf(op.to), s.WriterOf(op.to), BytesOf(op), StepOf(s, op))
  {
    var lane, w := s.LaneOf(op.to), s.WriterOf(op.to);
    match op {
      case Put(_, b) => PutKeeps(lane, w, b);
      case Write(_, bs) => PutBytesKeeps(lane, w, bs);
      case Flush(_) => OverflowKeeps(lane, w, []);
    }
  }

  /** A step leaves no more held than fits. */
  lemma StepHolds(s: Session, op: Op)
    requires s.Valid()
    ensures LaneFor(op.to, s.id, SizeAfter(s, op)).Valid()
    ensures |StepOf(s, op).writer.held| <= LaneFor(op.to, s.id, SizeAfter(s, op)).cap
  {
    if !op.Replace? {
      StepKeeps(s, op);
    }
  }

  // ---------------------------------------------------------------------------
  // Both streams over one descriptor
  // ---------------------------------------------------------------------------

  lemma {:induction false} OnlyConcat(a: seq<Record>, b: seq<Record>, kind: StreamType)
    ensures Only(a + b, kind) == Only(a, kind) + Only(b, kind)
  {
    if a == [] {
      assert a + b == b;
    } else {
      OnlyConcat(a[1..], b, kind);
      assert (a + b)[1..] == a[1..] + b && (a + b)[0] == a[0];
      var head := if a[0].recordType == kind.Code() then [a[0]] else [];
      assert head + (Only(a[1..], kind) + Only(b, kind)) == head + Only(a[1..], kind) + Only(b, kind);
    }
  }

  lemma {:induction false} OnlyFramed(lane: Lane, rs: seq<Record>, kind: StreamType)
    requires AllFramed(lane, rs)
    ensures Only(rs, kind) == if kind == lane.kind then rs else []
  {
    if rs != [] {
      OnlyFramed(lane, rs[1..], kind);
      assert Framed(lane, rs[0]);
      assert [rs[0]] + rs[1..] == rs;
    }
  }

  /** Buffers of the stream `c` are never larger than `size`. */
  predicate SizesWithin(s: Session, ops: seq<Op>, c: Channel, size: nat) {
    && LaneFor(c, s.id, size).Valid() && s.SizeOf(c) <= size
    && forall i :: 0 <= i < |ops| && ops[i].to == c && ops[i].Replace? ==> Usable(ops[i].size) <= size
  }

  const LARGEST: nat := 65528

  lemma NoneLarger(s: Session, ops: seq<Op>, c: Channel)
    requires s.Valid()
    ensures SizesWithin(s, ops, c, LARGEST)
  {
  }

  lemma SizeNow(s: Session, ops: seq<Op>, c: Channel, size: nat)
    requires s.Valid() && SizesWithin(s, ops, c, size)
    ensures Run(s, ops).session.SizeOf(c) <= size
  {
    if ops != [] {
      SizeNow(s, ops[..|ops| - 1], c, size);
    }
  }

  /**
    * The invariant of every run, stream by stream: what has been sent are framed records, and
    * with the bytes held they make up what the stream keeps.
    */
  predicate FaithfulTo(s: Session, records: seq<Record>, c: Channel, before: bool, kept: seq<byte>, size: nat) {
    Keeps(LaneFor(c, s.id, size), Writer([], before), kept, Step(s.WriterOf(c), Only(records, c.Kind())))
  }

  lemma OnlyStep(s: Session, records: seq<Record>, op: Op, c: Channel)
    requires s.Valid()
    ensures var more := StepOf(s, op).records;
            Only(records + more, c.Kind()) == Only(records, c.Kind()) + if op.to == c then more else []
  {
    OnlyConcat(records, StepOf(s, op).records, c.Kind());
    if !op.Replace? {
      StepKeeps(s, op);
      OnlyFramed(s.LaneOf(op.to), StepOf(s, op).records, c.Kind());
    }
  }

  /** What fits a smaller buffer fits a larger one. */
  lemma Widened(lane: Lane, wide: Lane, w: Writer, bs: seq<byte>, step: Step)
    requires Keeps(lane, w, bs, step) && lane.cap <= wide.cap && wide == lane.(cap := wide.cap)
    ensures Keeps(wide, w, bs, step)
  {
    forall i | 0 <= i < |step.records| ensures Framed(wide, step.records[i]) {
      assert Framed(lane, step.records[i]);
    }
  }

  lemma PerformKeepsOne(s: Session, records: seq<Record>, op: Op, c: Channel, before: bool, kept: seq<byte>, size: nat)
    requires s.Valid() && FaithfulTo(s, records, c, before, kept, size)
    requires LaneFor(c, s.id, size).Valid() && s.SizeOf(c) <= size
    ensures var o := Perform(s, op);
            FaithfulTo(o.session, records + o.records, c, before,
                       if op.to != c then kept
                       else if op.Replace? then Shortened(kept, |s.WriterOf(c).held|) else kept + BytesOf(op), size)
  {
    var sofar, wide := Only(records, c.Kind()), LaneFor(c, s.id, size);
    OnlyStep(s, records, op, c);
    if op.to != c {
      assert sofar + [] == sofar;
    } else if op.Replace? {
      assert sofar + [] == sofar && [] + kept == kept;
      ForgetsHeld(Contents(sofar), s.WriterOf(c).held, kept);
    } else {
      StepKeeps(s, op);
      Widened(s.LaneOf(c), wide, s.WriterOf(c), BytesOf(op), StepOf(s, op));
      KeepsTwice(wide, Writer([], before), kept, Step(s.WriterOf(c), sofar), BytesOf(op), StepOf(s, op));
    }
  }

  lemma ForgetsHeld(sent: seq<byte>, held: seq<byte>, kept: seq<byte>)
    requires sent + held == kept
    ensures sent + [] == [] + Shortened(kept, |held|)
  {
    assert kept[..|kept| - |held|] == sent;
  }

  /** Runs from any state of the writers, with buffers replaced at any time. */
  lemma {:induction false} RunIsFaithful(s: Session, ops: seq<Op>, c: Channel, size: nat)
    requires s.Valid() && SizesWithin(s, ops, c, size)
    ensures var o := Run(s, ops);
            FaithfulTo(o.session, o.records, c, s.WriterOf(c).sent, Kept(s, ops, c), size)
  {
    if ops == [] {
      assert [] + s.WriterOf(c).held == s.WriterOf(c).held;
    } else {
      var front, op := ops[..|ops| - 1], ops[|ops| - 1];
      RunIsFaithful(s, front, c, size);
      SizeNow(s, front, c, size);
      var before := Run(s, front);
      PerformKeepsOne(before.session, before.records, op, c, s.WriterOf(c).sent, Kept(s, front, c), size);
    }
  }

  predicate OfEither(s: Session, records: seq<Record>) {
    forall i :: 0 <= i < |records| ==>
      Framed(LaneFor(Stdout, s.id, LARGEST), records[i]) || Framed(LaneFor(Stderr, s.id, LARGEST), records[i])
  }

  lemma StepIsFramed(s: Session, records: seq<Record>, op: Op)
    requires s.Valid() && OfEither(s, records)
    ensures OfEither(s, records + Perform(s, op).records)
  {
    if !op.Replace? {
      StepKeeps(s, op);
      Widened(s.LaneOf(op.to), LaneFor(op.to, s.id, LARGEST), s.WriterOf(op.to), BytesOf(op), StepOf(s, op));
    }
  }

  lemma {:induction false} RunIsFramed(s: Session, ops: seq<Op>)
    requires s.Valid()
    ensures OfEither(s, Run(s, ops).records)
  {
    if ops != [] {
      var front, op := ops[..|ops| - 1], ops[|ops| - 1];
      RunIsFramed(s, front);
      StepIsFramed(Run(s, front).session, Run(s, front).records, op);
    }
  }

  // ---------------------------------------------------------------------------
  // When bytes are sent
  // ---------------------------------------------------------------------------

  /**
    * A flush sends: behind it nothing is held on its stream, all that the stream keeps is on the
    * wire, at most one record was added, and the other stream is as it was.
    */
  lemma FlushSends(s: Session, ops: seq<Op>, c: Channel)
    requires s.Valid()
    ensures var before, o := Run(s, ops), Run(s, ops + [Flush(c)]);
            && o.session.WriterOf(c).held == [] && Contents(Only(o.records, c.Kind())) == Kept(s, ops, c)
            && before.records <= o.records
            && |o.records| == |before.records| + (if before.session.WriterOf(c).held == [] then 0 else 1)
            && forall d: Channel :: d != c ==> o.session.WriterOf(d) == before.session.WriterOf(d)
  {
    RunMore(s, ops, Flush(c));
    assert (ops + [Flush(c)])[..|ops|] == ops;
    NoneLarger(s, ops + [Flush(c)], c);
    RunIsFaithful(s, ops + [Flush(c)], c, LARGEST);
    var o := Run(s, ops + [Flush(c)]);
    assert Kept(s, ops, c) + [] == Kept(s, ops, c) && [] + Kept(s, ops, c) == Kept(s, ops, c);
    assert Contents(Only(o.records, c.Kind())) + [] == Contents(Only(o.records, c.Kind()));
  }

  predicate AllFull(lane: Lane, rs: seq<Record>) {
    forall i :: 0 <= i < |rs| ==> |rs[i].content| == lane.cap + 1
  }

  lemma {:induction false} PutsFillRecords(lane: Lane, w: Writer, bs: seq<byte>)
    requires lane.Valid() && |w.held| <= lane.cap
    ensures AllFull(lane, PutBytes(lane, w, bs).records)
    decreases |bs|
  {
    if bs != [] {
      PutKeeps(lane, w, bs[0]);
      PutsFillRecords(lane, PutByte(lane, w, bs[0]).writer, bs[1..]);
    }
  }

  /** Neither flushed nor given a new buffer. */
  predicate OnlyPuts(ops: seq<Op>, c: Channel) {
    forall i :: 0 <= i < |ops| && ops[i].to == c ==> ops[i].Put? || ops[i].Write?
  }

  /** Without flushes a stream only sends records that fill its buffer, up to the reserved header. */
  lemma {:induction false} UnflushedIsFull(s: Session, ops: seq<Op>, c: Channel)
    requires s.Valid() && OnlyPuts(ops, c)
    ensures var o := Run(s, ops); o.session.SizeOf(c) == s.SizeOf(c)
    ensures AllFull(s.LaneOf(c), Only(Run(s, ops).records, c.Kind()))
  {
    if ops != [] {
      var front, op := ops[..|ops| - 1], ops[|ops| - 1];
      UnflushedIsFull(s, front, c);
      var before := Run(s, front);
      OnlyStep(before.session, before.records, op, c);
      if op.to == c {
        PutIsFull(before.session, op);
      }
    }
  }

  lemma PutIsFull(s: Session, op: Op)
    requires s.Valid() && (op.Put? || op.Write?)
    ensures AllFull(s.LaneOf(op.to), StepOf(s, op).records)
  {
    if op.Write? {
      PutsFillRecords(s.LaneOf(op.to), s.WriterOf(op.to), op.bs);
    }
  }

  // ---------------------------------------------------------------------------
  // What setbuf takes away
  // ---------------------------------------------------------------------------

  /** How many bytes the setbufs of a run take away from one stream. */
  function Forgotten(s: Session, ops: seq<Op>, c: Channel): nat
    requires s.Valid()
  {
    if ops == [] then 0
    else
      var front, op := ops[..|ops| - 1], ops[|ops| - 1];
      Forgotten(s, front, c)
        + if op.to == c && op.Replace? then |Run(s, front).session.WriterOf(c).held| else 0
  }

  lemma HeldIsKept(s: Session, ops: seq<Op>, c: Channel)
    requires s.Valid()
    ensures |Run(s, ops).session.WriterOf(c).held| <= |Kept(s, ops, c)|
  {
    NoneLarger(s, ops, c);
    RunIsFaithful(s, ops, c, LARGEST);
    assert [] + Kept(s, ops, c) == Kept(s, ops, c);
  }

  lemma {:induction false} KeptLength(s: Session, ops: seq<Op>, c: Channel)
    requires s.Valid()
    ensures |Kept(s, ops, c)| + Forgotten(s, ops, c) == |s.WriterOf(c).held| + |Accepted(ops, c)|
    ensures Forgotten(s, ops, c) == 0 ==> Kept(s, ops, c) == s.WriterOf(c).held + Accepted(ops, c)
  {
    if ops == [] {
      assert s.WriterOf(c).held + [] == s.WriterOf(c).held;
    } else {
      var front, op := ops[..|ops| - 1], ops[|ops| - 1];
      KeptLength(s, front, c);
      HeldIsKept(s, front, c);
      if op.to == c && !op.Replace? {
        Records.Associate(s.WriterOf(c).held, Accepted(front, c), BytesOf(op));
      } else {
        assert Accepted(front, c) + [] == Accepted(front, c);
      }
    }
  }

  /** If operation `i` is a setbuf on the stream, nothing is held then. */
  predicate NothingHeldAt(s: Session, ops: seq<Op>, c: Channel, i: nat)
    requires s.Valid() && i < |ops|
  {
    ops[i].to == c && ops[i].Replace? ==> Run(s, ops[..i]).session.WriterOf(c).held == []
  }

  /** At every setbuf on the stream nothing is held. */
  predicate NothingHeldAtSetbuf(s: Session, ops: seq<Op>, c: Channel)
    requires s.Valid()
  {
    forall i :: 0 <= i < |ops| ==> NothingHeldAt(s, ops, c, i)
  }

  lemma {:induction false} ForgottenNone(s: Session, ops: seq<Op>, c: Channel)
    requires s.Valid()
    ensures Forgotten(s, ops, c) == 0 <==> NothingHeldAtSetbuf(s, ops, c)
  {
    if ops != [] {
      ForgottenNone(s, ops[..|ops| - 1], c);
      UpToTheLast(s, ops, c);
    }
  }

  lemma UpToTheLast(s: Session, ops: seq<Op>, c: Channel)
    requires s.Valid() && ops != []
    ensures NothingHeldAtSetbuf(s, ops, c)
       <==> NothingHeldAtSetbuf(s, ops[..|ops| - 1], c) && NothingHeldAt(s, ops, c, |ops| - 1)
  {
    var front := ops[..|ops| - 1];
    forall i: nat | i < |front| ensures NothingHeldAt(s, front, c, i) == NothingHeldAt(s, ops, c, i) {
      assert front[..i] == ops[..i];
    }
    if NothingHeldAtSetbuf(s, front, c) && NothingHeldAt(s, ops, c, |ops| - 1) {
      forall i | 0 <= i < |ops| ensures NothingHeldAt(s, ops, c, i) {
        assert i < |front| ==> NothingHeldAt(s, front, c, i);
      }
    }
    if NothingHeldAtSetbuf(s, ops, c) {
      forall i | 0 <= i < |front| ensures NothingHeldAt(s, front, c, i) {
        assert NothingHeldAt(s, ops, c, i);
      }
    }
  }

  /**
    * setbuf promises to refuse while data is pending, but on an output stream it never does: the
    * new buffer starts empty. What any run with any number of setbufs has sent and still holds
    * is all that the stream was given, exactly when nothing is held at any of them.
    */
  lemma SetbufForgets(s: Session, ops: seq<Op>, c: Channel)
    requires s.Valid()
    ensures var o := Run(s, ops);
            Contents(Only(o.records, c.Kind())) + o.session.WriterOf(c).held == s.WriterOf(c).held + Accepted(ops, c)
            <==> NothingHeldAtSetbuf(s, ops, c)
  {
    var o := Run(s, ops);
    NoneLarger(s, ops, c);
    RunIsFaithful(s, ops, c, LARGEST);
    assert [] + Kept(s, ops, c) == Kept(s, ops, c);
    KeptLength(s, ops, c);
    ForgottenNone(s, ops, c);
  }

  // ---------------------------------------------------------------------------
  // The close
  // ---------------------------------------------------------------------------

  /** What closing sends, seen from one stream. */
  lemma OnlyClosing(lane: Lane, w: Writer, status: int, kind: StreamType)
    requires lane.Valid() && |w.held| <= lane.cap
    ensures var flushed := Overflowed(lane, w, []);
            Only(ClosingRecords(lane, w, status), kind)
            == if kind == lane.kind then flushed.records + Terminators(lane, flushed.writer.sent) else []
  {
    var flushed := Overflowed(lane, w, []);
    OverflowKeeps(lane, w, []);
    OnlyFramed(lane, flushed.records, kind);
    OnlyConcat(flushed.records, EndRecords(lane, flushed.writer.sent, status), kind);
    OnlyEnds(lane, flushed.writer.sent, status, kind);
  }

  lemma OnlyEnds(lane: Lane, sent: bool, status: int, kind: StreamType)
    ensures Only(EndRecords(lane, sent, status), kind) == if kind == lane.kind then Terminators(lane, sent) else []
  {
    OnlyConcat(Terminators(lane, sent), RequestEnd(lane, status), kind);
    OnlyShort(Terminators(lane, sent), kind);
    OnlyShort(RequestEnd(lane, status), kind);
  }

  lemma OnlyShort(rs: seq<Record>, kind: StreamType)
    requires |rs| <= 1
    ensures Only(rs, kind) == if rs != [] && rs[0].recordType == kind.Code() then rs else []
  {
    if rs != [] {
      assert rs == [rs[0]] && rs[1..] == [];
      assert [rs[0]] + Only(rs[1..], kind) == rs;
    }
  }

  /** With the final flush a stream has sent exactly what it keeps, and anything iff it did. */
  lemma FlushedStream(s: Session, records: seq<Record>, c: Channel, before: bool, kept: seq<byte>, size: nat)
    requires s.Valid() && FaithfulTo(s, records, c, before, kept, size)
    requires LaneFor(c, s.id, size).Valid() && s.SizeOf(c) <= size
    ensures var flushed := Overflowed(s.LaneOf(c), s.WriterOf(c), []);
            var all := Only(records, c.Kind()) + flushed.records;
            && AllFramed(LaneFor(c, s.id, size), all) && Contents(all) == kept
            && flushed.writer.sent == (before || all != []) && (all == [] <==> kept == [])
  {
    var lane, wide, w := s.LaneOf(c), LaneFor(c, s.id, size), s.WriterOf(c);
    var flushed := Overflowed(lane, w, []);
    OverflowKeeps(lane, w, []);
    Widened(lane, wide, w, [], flushed);
    KeepsTwice(wide, Writer([], before), kept, Step(w, Only(records, c.Kind())), [], flushed);
    var all := Only(records, c.Kind()) + flushed.records;
    assert Contents(all) + [] == Contents(all) && [] + (kept + []) == kept;
    if all != [] {
      assert Framed(wide, all[0]);
    }
  }

  /** One stream of a finished session: framed records with its bytes, then its terminators. */
  predicate Projected(rs: seq<Record>, lane: Lane, before: bool, bytes: seq<byte>, framed: seq<Record>) {
    && AllFramed(lane, framed) && Contents(framed) == bytes
    && Only(rs, lane.kind)
       == framed + if lane.kind.Out? || before || bytes != [] then [Record(lane.kind.Code(), lane.id, [], [])] else []
  }

  lemma OnlyWhole(s: Session, records: seq<Record>, status: int, c: Channel)
    requires s.Valid()
    ensures var flushed := Overflowed(s.LaneOf(c), s.WriterOf(c), []);
            Only(records + CloseBoth(s, status), c.Kind())
            == Only(records, c.Kind()) + flushed.records + Terminators(s.LaneOf(c), flushed.writer.sent)
  {
    var err, out := ClosingRecords(s.LaneOf(Stderr), s.err, status), ClosingRecords(s.LaneOf(Stdout), s.out, status);
    OnlyClosing(s.LaneOf(Stderr), s.err, status, c.Kind());
    OnlyClosing(s.LaneOf(Stdout), s.out, status, c.Kind());
    var flushed := Overflowed(s.LaneOf(c), s.WriterOf(c), []);
    OnlyLast(records, err, out, c, flushed.records, Terminators(s.LaneOf(c), flushed.writer.sent));
  }

  lemma OnlyLast(records: seq<Record>, err: seq<Record>, out: seq<Record>, c: Channel, a: seq<Record>, b: seq<Record>)
    requires Only(err, c.Kind()) == (if c.Stderr? then a + b else [])
    requires Only(out, c.Kind()) == (if c.Stdout? then a + b else [])
    ensures Only(records + (err + out), c.Kind()) == Only(records, c.Kind()) + a + b
  {
    OnlyConcat(records, err + out, c.Kind());
    OnlyConcat(err, out, c.Kind());
    assert Only(err + out, c.Kind()) == a + b;
    assert Only(records, c.Kind()) + (a + b) == Only(records, c.Kind()) + a + b;
  }

  /** The records of one stream: its bytes in order, and its end where section 5.3 asks for one. */
  lemma WireByStream(s: Session, ops: seq<Op>, status: int, c: Channel, size: nat) returns (framed: seq<Record>)
    requires s.Valid() && SizesWithin(s, ops, c, size)
    ensures Projected(WholeWire(s, ops, status), LaneFor(c, s.id, size), s.WriterOf(c).sent, Kept(s, ops, c), framed)
  {
    var o := Run(s, ops);
    RunIsFaithful(s, ops, c, size);
    SizeNow(s, ops, c, size);
    FlushedStream(o.session, o.records, c, s.WriterOf(c).sent, Kept(s, ops, c), size);
    OnlyWhole(o.session, o.records, status, c);
    framed := Only(o.records, c.Kind()) + Overflowed(o.session.LaneOf(c), o.session.WriterOf(c), []).records;
  }

  /** A record of the request on the wire other than the last: of one of its two streams. */
  predicate StreamRecord(id: nat, r: Record) {
    r.Valid() && r.id == id && (r.recordType == StreamType.Out.Code() || r.recordType == StreamType.Err.Code())
  }

  predicate AllStream(id: nat, rs: seq<Record>) {
    forall i :: 0 <= i < |rs| ==> StreamRecord(id, rs[i])
  }

  lemma FramedIsStream(lane: Lane, rs: seq<Record>)
    requires lane.Valid() && AllFramed(lane, rs)
    ensures AllStream(lane.id, rs)
  {
    forall i | 0 <= i < |rs| ensures StreamRecord(lane.id, rs[i]) {
      assert Framed(lane, rs[i]);
    }
  }

  /** Closing one stream sends records of that stream, then for `out` the end of the request. */
  lemma ClosingForm(lane: Lane, w: Writer, status: int) returns (front: seq<Record>)
    requires lane.Valid() && |w.held| <= lane.cap
    ensures ClosingRecords(lane, w, status) == front + RequestEnd(lane, status)
    ensures AllStream(lane.id, front)
  {
    var flushed := Overflowed(lane, w, []);
    OverflowKeeps(lane, w, []);
    FramedIsStream(lane, flushed.records);
    front := flushed.records + Terminators(lane, flushed.writer.sent);
    assert ClosingRecords(lane, w, status) == front + RequestEnd(lane, status);
  }

  lemma EarlierIsStream(s: Session, ops: seq<Op>)
    requires s.Valid()
    ensures AllStream(s.id, Run(s, ops).records)
  {
    var records := Run(s, ops).records;
    RunIsFramed(s, ops);
    forall i | 0 <= i < |records| ensures StreamRecord(s.id, records[i]) {
      assert Framed(LaneFor(Stdout, s.id, LARGEST), records[i]) || Framed(LaneFor(Stderr, s.id, LARGEST), records[i]);
    }
  }

  lemma Together(records: seq<Record>, err: seq<Record>, out: seq<Record>, last: Record)
    ensures records + ((err + []) + (out + [last])) == records + (err + out) + [last]
  {
  }

  /** The close: records of the two streams, then the end of the request. */
  lemma CloseForm(s: Session, status: int) returns (front: seq<Record>)
    requires s.Valid()
    ensures CloseBoth(s, status) == front + [EndRequest(s.id, status, RequestComplete)] && AllStream(s.id, front)
  {
    var err := ClosingForm(s.LaneOf(Stderr), s.err, status);
    var out := ClosingForm(s.LaneOf(Stdout), s.out, status);
    front := err + out;
    Together([], err, out, EndRequest(s.id, status, RequestComplete));
  }

  /**
    * The wire of a whole request: whole records of the two streams of the request, then its
    * one END_REQUEST record with the application status; the bytes determine the records.
    */
  lemma WireSafety(s: Session, ops: seq<Op>, status: int) returns (front: seq<Record>)
    requires s.Valid()
    ensures WholeWire(s, ops, status) == front + [EndRequest(s.id, status, RequestComplete)]
    ensures AllStream(s.id, front)
    ensures Decode(Encode(WholeWire(s, ops, status))) == Some(WholeWire(s, ops, status))
  {
    EarlierIsStream(s, ops);
    var o := Run(s, ops);
    var close := CloseForm(o.session, status);
    front := o.records + close;
    var last := EndRequest(s.id, status, RequestComplete);
    assert o.records + (close + [last]) == front + [last];
    DecodeEncode(front + [last]);
  }

  /** Before the close no empty record is sent, so no stream ends early. */
  lemma NoEarlyEnd(s: Session, ops: seq<Op>)
    requires s.Valid()
    ensures var o := Run(s, ops);
            forall i :: 0 <= i < |o.records| ==> o.records[i].content != [] && StreamRecord(s.id, o.records[i])
  {
    var o := Run(s, ops);
    RunIsFramed(s, ops);
    EarlierIsStream(s, ops);
    forall i | 0 <= i < |o.records| ensures o.records[i].content != [] {
      assert Framed(LaneFor(Stdout, s.id, LARGEST), o.records[i])
        || Framed(LaneFor(Stderr, s.id, LARGEST), o.records[i]);
    }
  }

  // ---------------------------------------------------------------------------
  // The two halves undo each other
  // ---------------------------------------------------------------------------

  function Relabel(rs: seq<Record>, kind: StreamType): (r: seq<Record>)
    ensures |r| == |rs|
  {
    seq(|rs|, i requires 0 <= i < |rs| => rs[i].(recordType := kind.Code()))
  }

  lemma {:induction false} RelabelContents(rs: seq<Record>, kind: StreamType)
    ensures Contents(Relabel(rs, kind)) == Contents(rs)
  {
    if rs != [] {
      RelabelContents(rs[1..], kind);
      assert Relabel(rs, kind)[1..] == Relabel(rs[1..], kind);
    }
  }

  /**
    * The records of `out`, relabelled as a stream that a reader of the same request with a
    * buffer no smaller expects, deliver the bytes that `out` keeps, then the end.
    */
  lemma ReaderUndoesWriter(s: Session, ops: seq<Op>, status: int, src: Source, tail: seq<byte>, size: nat)
    requires s.Valid() && SizesWithin(s, ops, Stdout, size) && src.id == s.id && size - 8 <= src.cap
    ensures var sent := Relabel(Only(WholeWire(s, ops, status), StreamType.Out), src.kind);
            var t := Demux(src, 0, 0, Encode(sent) + tail);
            t.content == Kept(s, ops, Stdout) && t.rest == tail && Fate(src, t.ending, t.rest) == Eof
  {
    var framed := WireByStream(s, ops, status, Stdout, size);
    ReadBack(LaneFor(Stdout, s.id, size), framed, src, tail);
  }

  lemma ReadBack(lane: Lane, framed: seq<Record>, src: Source, tail: seq<byte>)
    requires AllFramed(lane, framed) && lane.kind.Out? && 0 < lane.id == src.id <= MAX_ID && lane.cap + 1 <= src.cap
    ensures var sent := Relabel(framed + Terminators(lane, true), src.kind);
            var t := Demux(src, 0, 0, Encode(sent) + tail);
            t.content == Contents(framed) && t.rest == tail && Fate(src, t.ending, t.rest) == Eof
  {
    var body, end := Relabel(framed, src.kind), Record(src.kind.Code(), src.id, [], []);
    forall i | 0 <= i < |body| ensures IsOwn(src, body[i]) {
      assert Framed(lane, framed[i]);
    }
    RelabelContents(framed, src.kind);
    EncodeConcat(body, [end]);
    EncodeOne(end);
    Records.Associate(Encode(body), end.Bytes(), tail);
    DemuxStream(src, body, end, tail);
    assert Relabel(framed + Terminators(lane, true), src.kind) == body + [end];
    assert [] + tail == tail;
  }
}
