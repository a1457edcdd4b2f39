/**
  * What a writing stream buffer sends, as functions on the bytes it holds. The buffer of
  * src/fcgi/streambuf.cpp frames them in place; see StreamBuffers.
  */
module Output {
  import opened Alignment
  import opened Basics
  import opened Records

  /** A writing stream: its type, its request, and the bytes its put area takes before overflow. */
  datatype Lane = Lane(kind: StreamType, id: nat, cap: nat)
  {
    predicate Valid() {
      (kind.Out? || kind.Err?) && 0 < id <= MAX_ID && 0 < cap && cap + 9 <= 65528 && (cap + 9) % 8 == 0
    }
  }

  /** The bytes accepted and not yet sent, and whether a record has ever been sent. */
  datatype Writer = Writer(held: seq<byte>, sent: bool)

  datatype Step = Step(writer: Writer, records: seq<Record>)

  const Idle := Writer([], false)

  /** One record of the stream, padded to a multiple of 8. */
  function Frame(lane: Lane, content: seq<byte>): Record {
    Record(lane.kind.Code(), lane.id, content, Zeros(Padding8(|content|)))
  }

  /** overflow: sends what is held with the extra character, if anything is held at all. */
  function Overflowed(lane: Lane, w: Writer, extra: seq<byte>): Step {
    if w.held == [] then Step(w, [])
    else Step(Writer([], true), [Frame(lane, w.held + extra)])
  }

  /** sputc: stores the character while there is room, else hands it to overflow. */
  function PutByte(lane: Lane, w: Writer, b: byte): Step {
    if |w.held| < lane.cap then Step(w.(held := w.held + [b]), [])
    else Overflowed(lane, w, [b])
  }

  /** xsputn: the effect of putting one character after the other. */
  function PutBytes(lane: Lane, w: Writer, bs: seq<byte>): Step
    decreases |bs|
  {
    if bs == [] then Step(w, [])
    else
      var first := PutByte(lane, w, bs[0]);
      var rest := PutBytes(lane, first.writer, bs[1..]);
      Step(rest.writer, first.records + rest.records)
  }

  /** The empty record that ends a stream; an error stream that never sent needs none. */
  function Terminators(lane: Lane, sent: bool): seq<Record> {
    if !lane.kind.Err? || sent then [Record(lane.kind.Code(), lane.id, [], [])] else []
  }

  /** The end of the request, which goes with the end of `out`. */
  function RequestEnd(lane: Lane, status: int): seq<Record> {
    if lane.kind.Out? then [EndRequest(lane.id, status, RequestComplete)] else []
  }

  function EndRecords(lane: Lane, sent: bool, status: int): seq<Record> {
    Terminators(lane, sent) + RequestEnd(lane, status)
  }

  lemma EndRecordBytes(lane: Lane, sent: bool, status: int)
    ensures Encode(EndRecords(lane, sent, status)) ==
              (if !lane.kind.Err? || sent then MakeHeader(lane.kind.Code(), lane.id, 0, 0).Bytes() else [])
              + (if lane.kind.Out? then EndRequest(lane.id, status, RequestComplete).Bytes() else [])
  {
    var empty, end := Record(lane.kind.Code(), lane.id, [], []), EndRequest(lane.id, status, RequestComplete);
    EncodeConcat(Terminators(lane, sent), RequestEnd(lane, status));
    EncodeOne(empty);
    EncodeOne(end);
  }

  function ClosingRecords(lane: Lane, w: Writer, status: int): seq<Record> {
    var flushed := Overflowed(lane, w, []);
    flushed.records + EndRecords(lane, flushed.writer.sent, status)
  }

  lemma ClosingBytes(lane: Lane, w: Writer, status: int, wire: seq<byte>)
    ensures var flushed := Overflowed(lane, w, []);
            wire + Encode(flushed.records) + Encode(EndRecords(lane, flushed.writer.sent, status))
            == wire + Encode(ClosingRecords(lane, w, status))
  {
    var flushed := Overflowed(lane, w, []);
    var a, b := flushed.records, EndRecords(lane, flushed.writer.sent, status);
    EncodeConcat(a, b);
    Records.Associate(wire, Encode(a), Encode(b));
  }

  /** When close may go ahead, given the reading side. */
  predicate MayClose(role: Role, kind: StreamType, unreadContent: nat) {
    !role.Filter? || kind.Data? || unreadContent == 0
  }

  /**
    * In-place framing fits: with everything the put area can hold and the extra character,
    * the padding stays inside the buffer, the content fits 16 bits and the record is aligned.
    */
  lemma FrameFits(lane: Lane, content: seq<byte>)
    requires lane.Valid() && |content| <= lane.cap + 1
    ensures HEADER_SIZE + |content| + Padding8(|content|) <= lane.cap + 9
    ensures |Frame(lane, content).Bytes()| % 8 == 0
    ensures Frame(lane, content).Valid()
  {
    FillsUp(lane.cap + 1, |content|);
  }

  lemma FillsUp(room: nat, n: nat)
    requires room % 8 == 0 && n <= room
    ensures n + Padding8(n) <= room
  {
    assert (n + Padding8(n)) % 8 == 0;
  }

  /** Putting a piece that fits stores it; a piece that fills and one more byte sends a record. */
  lemma {:induction false} PutFits(lane: Lane, w: Writer, bs: seq<byte>)
    requires |w.held| + |bs| <= lane.cap
    ensures PutBytes(lane, w, bs) == Step(w.(held := w.held + bs), [])
    decreases |bs|
  {
    if bs == [] {
      assert w.held + bs == w.held;
    } else {
      PutFits(lane, PutByte(lane, w, bs[0]).writer, bs[1..]);
      assert w.held + [bs[0]] + bs[1..] == w.held + bs;
    }
  }

  lemma {:induction false} PutConcat(lane: Lane, w: Writer, a: seq<byte>, b: seq<byte>)
    ensures var s := PutBytes(lane, w, a); var t := PutBytes(lane, s.writer, b);
            PutBytes(lane, w, a + b) == Step(t.writer, s.records + t.records)
    decreases |a|
  {
    if a == [] {
      assert a + b == b;
    } else {
      var first := PutByte(lane, w, a[0]);
      PutConcat(lane, first.writer, a[1..], b);
      assert (a + b)[0] == a[0] && (a + b)[1..] == a[1..] + b;
      var s := PutBytes(lane, first.writer, a[1..]);
      var t := PutBytes(lane, s.writer, b);
      assert first.records + (s.records + t.records) == (first.records + s.records) + t.records;
    }
  }

  lemma PutOne(lane: Lane, w: Writer, b: byte)
    ensures PutBytes(lane, w, [b]) == PutByte(lane, w, b)
  {
    var first := PutByte(lane, w, b);
    assert PutBytes(lane, first.writer, [b][1..]) == Step(first.writer, []);
    assert first.records + [] == first.records;
  }

  /** Putting `bs` took the writer to `writer` and the wire to `after`. */
  predicate Wrote(lane: Lane, w: Writer, before: seq<byte>, bs: seq<byte>, writer: Writer, after: seq<byte>) {
    var step := PutBytes(lane, w, bs);
    writer == step.writer && after == before + Encode(step.records)
  }

  lemma WroteNothing(lane: Lane, w: Writer, wire: seq<byte>)
    ensures Wrote(lane, w, wire, [], w, wire)
  {
  }

  lemma WroteTwice(lane: Lane, w: Writer, x: seq<byte>, a: seq<byte>, v: Writer, y: seq<byte>, b: seq<byte>,
      u: Writer, z: seq<byte>)
    requires Wrote(lane, w, x, a, v, y) && Wrote(lane, v, y, b, u, z)
    ensures Wrote(lane, w, x, a + b, u, z)
  {
    PutConcat(lane, w, a, b);
    var s, t := PutBytes(lane, w, a).records, PutBytes(lane, v, b).records;
    EncodeConcat(s, t);
    Records.Associate(x, Encode(s), Encode(t));
  }
}
