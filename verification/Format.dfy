/**
  * The bytes on the wire as numbers: those of sections 3.3, 3.4, 5.1 and 5.5 of the FastCGI
  * Specification, against what the other modules define by name.
  */
module Format {
  import opened Alignment
  import opened Arithmetic
  import opened Basics
  import opened Connections
  import opened Input
  import opened NamesValues
  import opened Output
  import opened Records
  import opened Sessions

  /** Two bytes as a number, the higher first. */
  function Word(hi: byte, lo: byte): nat {
    256 * hi as int + lo as int
  }

  /** Where the parts of a header lie. */
  lemma HeaderLayout(s: seq<byte>)
    requires |s| == 8
    ensures var h := HeaderOf(s);
            && (h.IsValid() <==> s[0] == 1) && h.recordType == s[1]
            && h.RequestId() == Word(s[2], s[3]) && (h.IsManagement() <==> s[2] == s[3] == 0)
            && h.ContentLength() == Word(s[4], s[5]) && h.paddingLength == s[6] && h.Bytes() == s
  {
    var h := HeaderOf(s);
    assert h.Bytes() == [s[0], s[1], s[2], s[3], s[4], s[5], s[6], s[7]];
  }

  /** The header of a record of version 1 with that type, request and lengths. */
  function Starts(kind: byte, id: nat, length: nat, padding: byte): seq<byte>
    requires id <= 65535 && length <= 65535
  {
    [1, kind, id / 256, id % 256, length / 256, length % 256, padding, 0]
  }

  lemma RecordNumbers(r: Record)
    requires r.Valid()
    ensures r.Bytes() == Starts(r.recordType, r.id, |r.content|, |r.padding|) + r.content + r.padding
  {
  }

  // ---------------------------------------------------------------------------
  // What a request begins with
  // ---------------------------------------------------------------------------

  /** BEGIN_REQUEST: version 1, type 1, some request, 8 bytes of content. */
  lemma BeginBytes(s: seq<byte>)
    requires |s| >= 16
    ensures var h, body := HeaderOf(s[..8]), BeginRequestBodyOf(s[8..16]);
            && (h.IsValid() && IsBegin(h) <==>
                  s[0] == 1 && s[1] == 1 && (s[2] != 0 || s[3] != 0) && s[4] == 0 && s[5] == 8)
            && h.RequestId() == Word(s[2], s[3])
            && (body.Role() == Some(Responder) <==> s[8] == 0 && s[9] == 1)
            && (body.Role() == Some(Authorizer) <==> s[8] == 0 && s[9] == 2)
            && (body.Role() == Some(Filter) <==> s[8] == 0 && s[9] == 3)
            && (body.Role() == None <==> s[8] != 0 || s[9] == 0 || s[9] > 3)
            && (body.IsKeepConn() <==> s[10] % 2 == 1)
  {
    HeaderLayout(s[..8]);
  }

  // ---------------------------------------------------------------------------
  // What a reader makes of a record
  // ---------------------------------------------------------------------------

  /** Types 4, 5 and 8 are those of parameters, standard input and data; a stream takes no other than its own. */
  lemma InputTypes(id: nat, cap: nat, kind: byte, length: nat, padding: byte)
    requires 0 < id <= 65535 && length <= 65535 && kind != 1
    ensures var h := HeaderOf(Starts(kind, id, length, padding));
            var own := if length > cap then Oversized else if length > 0 then Own else EndOfStream;
            && h.ContentLength() == length && h.paddingLength == padding
            && Classify(Source(Params, id, cap), h) == (if kind == 4 then own else WrongType)
            && Classify(Source(StreamType.In, id, cap), h) == (if kind == 5 then own else WrongType)
            && Classify(Source(StreamType.Data, id, cap), h) == (if kind == 8 then own else WrongType)
  {
    HeaderLayout(Starts(kind, id, length, padding));
  }

  /** Of any type, version and request: what is not of the stream's request, or not of version 1. */
  lemma OtherVerdicts(src: Source, s: seq<byte>)
    requires |s| == 8
    ensures var h, id := HeaderOf(s), Word(s[2], s[3]);
            && (Classify(src, h).BadVersion? <==> s[0] != 1)
            && (Classify(src, h).Foreign? <==> s[0] == 1 && (s[1] == 1 || (id != 0 && id != src.id)))
            && (Classify(src, h).Management? <==> s[0] == 1 && s[1] != 1 && id == 0)
  {
    HeaderLayout(s);
  }

  /**
    * A further BEGIN_REQUEST, of any request, in front of `rest` is rejected once, and once more for
    * each time that as many bytes of `rest` have come as it announces.
    */
  lemma RejectedAgain(src: Source, s: seq<byte>, rest: seq<byte>)
    requires |s| == 8 && s[0] == s[1] == 1 && Word(s[4], s[5]) <= src.cap && 0 < Word(s[4], s[5]) + s[6] as nat
    ensures var h := HeaderOf(s); var replies := Replies(src, At(Classify(src, h), h), rest);
            && |replies| == 1 + |rest| / (Word(s[4], s[5]) + s[6] as nat)
            && forall i :: 0 <= i < |replies| ==> replies[i].Bytes() == EndBytes(Word(s[2], s[3]), 0, 1)
  {
    HeaderLayout(s);
    RejectionBytes(HeaderOf(s));
    TimesIsQuotient(|rest|, Word(s[4], s[5]) + s[6] as nat);
  }

  // ---------------------------------------------------------------------------
  // What a writer sends
  // ---------------------------------------------------------------------------

  /** Type 6 for standard output, type 7 for standard error. */
  function OutputType(c: Channel): byte {
    if c.Stdout? then 6 else 7
  }

  /** A record as the buffer frames it: padded with the fewest zeros that fill up to a multiple of 8. */
  lemma FrameBytes(c: Channel, id: nat, size: nat, content: seq<byte>)
    requires LaneFor(c, id, size).Valid() && |content| <= size - 8
    ensures var fill := (8 - |content| % 8) % 8;
            Frame(LaneFor(c, id, size), content).Bytes()
            == Starts(OutputType(c), id, |content|, fill) + content + Zeros(fill)
  {
    FrameFits(LaneFor(c, id, size), content);
    FillTo8(|content|);
    RecordNumbers(Frame(LaneFor(c, id, size), content));
  }

  lemma FillTo8(n: int)
    ensures Padding8(n) == (8 - n % 8) % 8
  {
    var q, r := n / 8, n % 8;
    if r == 0 {
      ModIs(-n, 8, -q, 0);
    } else {
      ModIs(-n, 8, -q - 1, 8 - r);
    }
  }

  /** Every record of one of the two streams on a whole wire starts with its type and the request. */
  lemma StreamStarts(s: Session, ops: seq<Op>, status: int, c: Channel, i: nat)
    requires s.Valid() && i < |Only(WholeWire(s, ops, status), c.Kind())|
    ensures var bytes := Only(WholeWire(s, ops, status), c.Kind())[i].Bytes();
            |bytes| >= 8 && bytes[..4] == [1, OutputType(c), s.id / 256, s.id % 256]
  {
    NoneLarger(s, ops, c);
    var framed := WireByStream(s, ops, status, c, LARGEST);
    var r := Only(WholeWire(s, ops, status), c.Kind())[i];
    if i < |framed| {
      assert r == framed[i] && Framed(LaneFor(c, s.id, LARGEST), framed[i]);
    }
    FirstFour(r);
  }

  lemma FirstFour(r: Record)
    requires r.Valid()
    ensures |r.Bytes()| >= 8 && r.Bytes()[..4] == [1, r.recordType, r.id / 256, r.id % 256]
  {
    RecordNumbers(r);
    var head := Starts(r.recordType, r.id, |r.content|, |r.padding|);
    assert (head + r.content + r.padding)[..4] == head[..4];
  }

  /** A rejection: END_REQUEST for the request of the header, with protocol status 1. */
  lemma RejectionBytes(h: Header)
    ensures Rejection(h).Bytes() == EndBytes(h.RequestId(), 0, 1)
  {
    EndRequestBytes(h.RequestId(), 0, CantMpxConn);
  }

  /** A close ends the wire with END_REQUEST, the application status and protocol status 0. */
  lemma CloseBytes(s: Session, status: int, before: seq<byte>)
    requires s.Valid()
    ensures EndsWith(before + Encode(CloseBoth(s, status)), EndBytes(s.id, status, 0))
  {
    var front := CloseForm(s, status);
    var last := EndRequest(s.id, status, RequestComplete);
    EncodeConcat(front, [last]);
    EncodeOne(last);
    EndRequestBytes(s.id, status, RequestComplete);
    Records.Associate(before, Encode(front), last.Bytes());
    TheEnd(before + Encode(front), last.Bytes());
  }

  predicate EndsWith(s: seq<byte>, end: seq<byte>) {
    |s| >= |end| && s[|s| - |end|..] == end
  }

  lemma TheEnd(s: seq<byte>, end: seq<byte>)
    ensures EndsWith(s + end, end)
  {
  }

  lemma WholeWireBytes(s: Session, ops: seq<Op>, status: int, before: seq<byte>)
    requires s.Valid()
    ensures EndsWith(before + Encode(WholeWire(s, ops, status)), EndBytes(s.id, status, 0))
  {
    var o := Run(s, ops);
    EncodeConcat(o.records, CloseBoth(o.session, status));
    Records.Associate(before, Encode(o.records), Encode(CloseBoth(o.session, status)));
    CloseBytes(o.session, status, before + Encode(o.records));
  }

  // ---------------------------------------------------------------------------
  // Name-value pairs
  // ---------------------------------------------------------------------------

  /** Lengths below 128 take one byte, all others four, the most significant first with its top bit set. */
  lemma PairBytes(name: seq<byte>, value: seq<byte>, tail: seq<byte>)
    requires |name| < 128 <= |value| < 0x7000_0000
    ensures var n := |value|;
            Parse([|name|, 128 + n / 16777216, n / 65536 % 256, n / 256 % 256, n % 256] + name + value + tail)
            == Prepend([Pair(name, value)], Parse(tail))
  {
    var f := Form(Pair(name, value), false, true);
    ParseOne(f, tail);
    var n := |value|;
    assert f.Bytes() == [|name|, 128 + n / 16777216, n / 65536 % 256, n / 256 % 256, n % 256] + name + value;
  }

  /** A name of 2^31 - 1 bytes: with a value of one byte the sum is not an int, with an empty one it is. */
  lemma SumRefused(tail: seq<byte>)
    ensures Parse([255, 255, 255, 255, 1] + tail) == Result.Err(SumOverflow)
    ensures |tail| < 0x7fff_ffff ==> Parse([255, 255, 255, 255, 0] + tail) == Result.Err(DataCut)
  {
    LongName(1, tail);
    LongName(0, tail);
    FirstByLengths([255, 255, 255, 255, 1] + tail);
    FirstByLengths([255, 255, 255, 255, 0] + tail);
  }

  lemma LongName(b: byte, tail: seq<byte>)
    requires b < 128
    ensures LengthsOf([255, 255, 255, 255, b] + tail) == Some((0x7fff_ffff, b as nat, 5))
    ensures ([255, 255, 255, 255, b] + tail)[5..] == tail
  {
    var s := [255, 255, 255, 255, b] + tail;
    assert s[4..] == [b] + tail;
  }

  // ---------------------------------------------------------------------------
  // Examples, byte by byte
  // ---------------------------------------------------------------------------

  /** The buffers of a connection: input takes 16384 bytes of content, output sends 65520 at a time. */
  lemma BufferSizes(id: nat, ops: seq<Op>, c: Channel)
    requires 0 < id <= MAX_ID && OnlyPuts(ops, c)
    ensures ParamsView(Responder, id, []).src.cap == InputView(Responder, id, []).src.cap == 16384
    ensures var records := Only(Run(Start(id, OUT_BUFFER_SIZE), ops).records, c.Kind());
            forall i :: 0 <= i < |records| ==> |records[i].content| == 65520
  {
    UnflushedIsFull(Start(id, OUT_BUFFER_SIZE), ops, c);
  }

  /** `A` is put to standard output of request 1 and flushed, and the connection closed. */
  lemma OutputExample()
    ensures Encode(WholeWire(Start(1, OUT_BUFFER_SIZE), [Put(Stdout, 65), Flush(Stdout)], 0))
         == [1, 6, 0, 1, 0, 1, 7, 0, 65, 0, 0, 0, 0, 0, 0, 0]
            + [1, 6, 0, 1, 0, 0, 0, 0]
            + [1, 3, 0, 1, 0, 8, 0, 0, 0, 0, 0, 0, 0, 0, 0, 0]
  {
    var s := Start(1, OUT_BUFFER_SIZE);
    var a, b, c := ExampleRecords(s);
    OneByteSent(s);
    assert CloseBoth(s.(out := Writer([], true)), 0) == [b, c];
    assert [a] + [b, c] == [a] + [b] + [c];
    EncodeThree(a, b, c);
  }

  lemma ExampleRecords(s: Session) returns (a: Record, b: Record, c: Record)
    requires s == Start(1, OUT_BUFFER_SIZE)
    ensures a == Frame(s.LaneOf(Stdout), [65])
    ensures a.Bytes() == [1, 6, 0, 1, 0, 1, 7, 0, 65, 0, 0, 0, 0, 0, 0, 0]
    ensures b == Record(StreamType.Out.Code(), 1, [], []) && b.Bytes() == [1, 6, 0, 1, 0, 0, 0, 0]
    ensures c == EndRequest(1, 0, RequestComplete)
    ensures c.Bytes() == [1, 3, 0, 1, 0, 8, 0, 0, 0, 0, 0, 0, 0, 0, 0, 0]
  {
    a, b := Frame(s.LaneOf(Stdout), [65]), Record(StreamType.Out.Code(), 1, [], []);
    c := EndRequest(1, 0, RequestComplete);
    FrameBytes(Stdout, 1, OUT_BUFFER_SIZE, [65]);
    RecordNumbers(b);
    EndRequestBytes(1, 0, RequestComplete);
  }

  lemma EncodeThree(a: Record, b: Record, c: Record)
    ensures Encode([a] + [b] + [c]) == a.Bytes() + b.Bytes() + c.Bytes()
  {
    EncodeConcat([a] + [b], [c]);
    EncodeConcat([a], [b]);
    EncodeOne(a);
    EncodeOne(b);
    EncodeOne(c);
  }

  lemma OneByteSent(s: Session)
    requires s.Valid() && s.out == s.err == Idle && 0 < s.LaneOf(Stdout).cap
    ensures Run(s, [Put(Stdout, 65), Flush(Stdout)])
         == Outcome(s.(out := Writer([], true)), [Frame(s.LaneOf(Stdout), [65])])
  {
    var put, ops := [Put(Stdout, 65)], [Put(Stdout, 65), Flush(Stdout)];
    assert put[..0] == [] && ops[..1] == put;
    assert [] + [65] == [65];
    assert Run(s, put) == Outcome(s.(out := Writer([65], false)), []);
    assert [65] + [] == [65];
  }
}
