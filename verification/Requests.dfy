/**
  * Whole requests: what a peer's bytes become from the parameters to the last character read,
  * and where the guards of the source say less than they promise.
  */
module Requests {
  import opened Alignment
  import opened BaseConnection
  import opened Basics
  import opened Connections
  import opened Input
  import opened InputRuns
  import opened Lives
  import opened NamesValues
  import opened Output
  import opened Parameters
  import opened Records
  import opened Sessions
  import opened StreamBuffers
  import opened Transport

  function ParamsSource(id: nat): Source {
    Source(Params, id, IN_BUFFER_SIZE)
  }

  function InSource(id: nat): Source {
    Source(In, id, IN_BUFFER_SIZE)
  }

  function DataSource(id: nat): Source {
    Source(Data, id, IN_BUFFER_SIZE)
  }

  /** A stream as a peer sends it: own records, then a terminator without padding. */
  predicate IsStream(src: Source, rs: seq<Record>, end: Record) {
    0 < src.id && AllOwn(src, rs) && IsTerminator(src, end) && end.padding == []
  }

  /** The bytes of such a stream in front of others. */
  function StreamBytes(rs: seq<Record>, end: Record, next: seq<byte>): seq<byte> {
    Encode(rs) + (end.Bytes() + next)
  }

  lemma OpenStream(src: Source, role: Role, rs: seq<Record>, end: Record, next: seq<byte>)
    requires IsStream(src, rs, end)
    ensures Open(src, role, StreamBytes(rs, end, next))
         == View(src, role, false, Tail(Contents(rs), At(EndOfStream, end.Head()), next))
  {
    DemuxUnpadded(src, rs, end, next);
  }

  /**
    * However pairs are encoded and cut into records, the connection's parameters are those
    * pairs in order; and a stream of parameters is accepted exactly when its content is an
    * encoding of pairs.
    */
  lemma ParametersEndToEnd(id: nat, role: Role, rs: seq<Record>, end: Record, next: seq<byte>)
    requires IsStream(ParamsSource(id), rs, end)
    ensures var v := ParamsView(role, id, StreamBytes(rs, end, next));
            && (Sound(v) <==> exists fs :: AllLegal(fs) && EncodePairs(fs) == Contents(rs))
            && (forall fs :: AllLegal(fs) && EncodePairs(fs) == Contents(rs) ==> Parse(v.tail.content) == Ok(Pairs(fs)))
    ensures InputView(role, id, StreamBytes(rs, end, next))
         == if role.Authorizer? then View(ParamsSource(id), role, true, Finished(next))
           else Open(InSource(id), role, next)
  {
    OpenStream(ParamsSource(id), role, rs, end, next);
    ParsesExactlyEncodings(Contents(rs));
    forall fs | AllLegal(fs) && EncodePairs(fs) == Contents(rs) ensures Parse(Contents(rs)) == Ok(Pairs(fs)) {
      ParseEncode(fs);
    }
    DrawStuck(Drained(ParamsView(role, id, StreamBytes(rs, end, next))));
  }

  /** A complete stream of parameters that does not encode pairs fails by an exception, and nothing is written. */
  lemma BadParametersThrow(id: nat, role: Role, rs: seq<Record>, end: Record, next: seq<byte>)
    requires IsStream(ParamsSource(id), rs, end)
    requires !exists fs :: AllLegal(fs) && EncodePairs(fs) == Contents(rs)
    ensures var v := ParamsView(role, id, StreamBytes(rs, end, next));
            && !Sound(v) && Failure(v) == Threw
            && forall x, y :: FailureAnswers(v, x, y) <==> y == x
  {
    var v := ParamsView(role, id, StreamBytes(rs, end, next));
    ParametersEndToEnd(id, role, rs, end, next);
    OpenStream(ParamsSource(id), role, rs, end, next);
    DrawStuck(Drained(v));
    forall x, y ensures FailureAnswers(v, x, y) <==> y == x {
      assert x + [] == x;
    }
  }

  /** One byte, a name length, does not encode pairs: the value length is missing. */
  lemma LoneByteThrows(id: nat, role: Role, b: byte, next: seq<byte>)
    requires 0 < id <= MAX_ID
    ensures var r, end := Record(Params.Code(), id, [b], []), Record(Params.Code(), id, [], []);
            Failure(ParamsView(role, id, StreamBytes([r], end, next))) == Threw
  {
    var r, end := Record(Params.Code(), id, [b], []), Record(Params.Code(), id, [], []);
    OneContent(r);
    assert Parse([b]).Err?;
    ParsesExactlyEncodings([b]);
    BadParametersThrow(id, role, [r], end, next);
  }

  lemma OneContent(r: Record)
    ensures Contents([r]) == r.content
  {
    assert [r][1..] == [] && r.content + [] == r.content;
  }

  /** A stream opened on its bytes: its content, its end, and what lies behind. */
  function StreamView(src: Source, role: Role, content: seq<byte>, h: Header, rest: seq<byte>): View {
    View(src, role, false, Tail(content, At(EndOfStream, h), rest))
  }

  /** What the input stream shows behind well-formed parameters, where another stream follows. */
  lemma InputBehindParameters(id: nat, role: Role, ps: seq<Record>, end: Record, ins: seq<Record>, end': Record,
      rest: seq<byte>)
    requires IsStream(ParamsSource(id), ps, end) && IsStream(InSource(id), ins, end') && !role.Authorizer?
    ensures InputView(role, id, StreamBytes(ps, end, StreamBytes(ins, end', rest)))
         == StreamView(InSource(id), role, Contents(ins), end'.Head(), rest)
  {
    ParametersEndToEnd(id, role, ps, end, StreamBytes(ins, end', rest));
    OpenStream(InSource(id), role, ins, end', rest);
  }

  /** All the content, then end of file for ever. */
  ghost predicate ReadsOnce(v: View, content: seq<byte>) {
    forall k: nat :: Draws(v, |content| + 1 + k) == BytesAs(content) + [Eof] + Eofs(k)
  }

  /** All of one content, one end of file, all of another content, then end of file for ever. */
  ghost predicate ReadsTwice(v: View, first: seq<byte>, second: seq<byte>) {
    forall k: nat :: Draws(v, |first| + 1 + (|second| + 1 + k))
      == BytesAs(first) + [Eof] + (BytesAs(second) + [Eof] + Eofs(k))
  }

  lemma OneStream(v: View, src: Source, content: seq<byte>, h: Header, rest: seq<byte>)
    requires v == StreamView(src, Responder, content, h, rest)
    ensures ReadsOnce(v, content)
  {
    forall k: nat ensures Draws(v, |content| + 1 + k) == BytesAs(content) + [Eof] + Eofs(k) {
      SinglePhaseRun(v, k);
    }
  }

  lemma NextStream(v: View, id: nat, content: seq<byte>, h: Header, data: seq<Record>, end: Record, rest: seq<byte>)
    requires IsStream(DataSource(id), data, end)
    requires v == StreamView(InSource(id), Filter, content, h, StreamBytes(data, end, rest))
    ensures AfterEnd(Skip(v, |content|)) == StreamView(DataSource(id), Filter, Contents(data), end.Head(), rest)
  {
    OpenStream(DataSource(id), Filter, data, end, rest);
  }

  lemma TwoStreams(v: View, id: nat, content: seq<byte>, h: Header, data: seq<Record>, end: Record, rest: seq<byte>)
    requires IsStream(DataSource(id), data, end)
    requires v == StreamView(InSource(id), Filter, content, h, StreamBytes(data, end, rest))
    ensures ReadsTwice(v, content, Contents(data))
  {
    var d := StreamView(DataSource(id), Filter, Contents(data), end.Head(), rest);
    NextStream(v, id, content, h, data, end, rest);
    forall k: nat
      ensures Draws(v, |content| + 1 + (|Contents(data)| + 1 + k))
           == BytesAs(content) + [Eof] + (BytesAs(Contents(data)) + [Eof] + Eofs(k))
    {
      FilterRun(v, d, k);
    }
  }

  /** A Responder reads the content of its standard input, whatever follows, then end of file for ever. */
  lemma ResponderReads(id: nat, ps: seq<Record>, end: Record, ins: seq<Record>, end': Record, rest: seq<byte>)
    requires IsStream(ParamsSource(id), ps, end) && IsStream(InSource(id), ins, end')
    ensures ReadsOnce(InputView(Responder, id, StreamBytes(ps, end, StreamBytes(ins, end', rest))), Contents(ins))
  {
    InputBehindParameters(id, Responder, ps, end, ins, end', rest);
    OneStream(InputView(Responder, id, StreamBytes(ps, end, StreamBytes(ins, end', rest))),
              InSource(id), Contents(ins), end'.Head(), rest);
  }

  /** A Filter reads its standard input, one end of file, its data, then end of file for ever. */
  lemma FilterReads(id: nat, ps: seq<Record>, end: Record, ins: seq<Record>, end': Record,
                    data: seq<Record>, end'': Record, rest: seq<byte>)
    requires IsStream(ParamsSource(id), ps, end) && IsStream(InSource(id), ins, end')
              && IsStream(DataSource(id), data, end'')
    ensures ReadsTwice(InputView(Filter, id,
                                 StreamBytes(ps, end, StreamBytes(ins, end', StreamBytes(data, end'', rest)))),
                       Contents(ins), Contents(data))
  {
    var next := StreamBytes(data, end'', rest);
    InputBehindParameters(id, Filter, ps, end, ins, end', next);
    TwoStreams(InputView(Filter, id, StreamBytes(ps, end, StreamBytes(ins, end', next))),
               id, Contents(ins), end'.Head(), data, end'', rest);
  }

  /** An Authorizer has no input behind its parameters. */
  lemma AuthorizerReads(id: nat, ps: seq<Record>, end: Record, next: seq<byte>, n: nat)
    requires IsStream(ParamsSource(id), ps, end)
    ensures Draws(InputView(Authorizer, id, StreamBytes(ps, end, next)), n) == Eofs(n)
  {
    ParametersEndToEnd(id, Authorizer, ps, end, next);
    DrawEnded(InputView(Authorizer, id, StreamBytes(ps, end, next)), n);
  }

  // ---------------------------------------------------------------------------
  // Guards that say less than they promise
  // ---------------------------------------------------------------------------

  /** Behind a header that is at hand comes content of the stream. */
  predicate ContentBehindHeader(a: InputState) {
    && NextHeader(a).Some? && Classify(a.src, NextHeader(a).value).Own?
    && |a.pending| > a.padding + HEADER_SIZE
  }

  /**
    * Closing a Filter is refused with the message that its standard input has not all been
    * read. The guard only sees what of the record under way has not been put into the get area.
    * So close goes ahead with content of `in` unread exactly where nothing of that kind is due,
    * but characters are exposed or another record follows; and it is refused with no content
    * left exactly where content is due that the peer never sends.
    */
  lemma FilterMayCloseUnread(a: InputState)
    requires a.role.Filter? && a.src.kind.In? && !a.ended && a.ready <= |a.pending|
    ensures var may, left := MayClose(a.role, a.src.kind, a.unread), ViewOf(a).tail.content != [];
            && (may && left <==> a.unread == 0 && (a.ready > 0 || ContentBehindHeader(a)))
            && (!may && !left <==> a.unread > 0 && a.pending == [])
  {
    if a.ready == 0 && NextHeader(a).Some? {
      OwnStep(a.src, a.padding, a.pending);
    }
  }

  lemma UnreadAtFirst(id: nat, ps: seq<Record>, end: Record, ins: seq<Record>, end': Record, rest: seq<byte>)
    requires IsStream(ParamsSource(id), ps, end) && IsStream(InSource(id), ins, end') && ins != []
    ensures InputView(Filter, id, StreamBytes(ps, end, StreamBytes(ins, end', rest))).tail.content
              == Contents(ins) != []
  {
    InputBehindParameters(id, Filter, ps, end, ins, end', rest);
    assert IsOwn(InSource(id), ins[0]);
  }

  /**
    * A Filter that has just been accepted may close with all of its standard input unread:
    * `left` is the content still to be read at the moment of the close, which succeeds.
    */
  method CloseUnread(io: Descriptor, ghost ps: seq<Record>, ghost end: Record,
                     ghost ins: seq<Record>, ghost end': Record, ghost rest: seq<byte>)
    returns (r: Acceptance, closing: Closing, ghost left: seq<byte>)
    requires |io.incoming| >= 16 && BeginRequestBodyOf(io.incoming[8..16]).Role() == Some(Filter)
    requires var id := HeaderOf(io.incoming[..8]).RequestId();
             && IsStream(ParamsSource(id), ps, end) && IsStream(InSource(id), ins, end') && ins != []
             && io.incoming[16..] == StreamBytes(ps, end, StreamBytes(ins, end', rest))
    modifies io
    ensures r.Connected? ==> closing.Done? && r.connection.IsClosed() && left == Contents(ins) != []
    ensures !r.Connected? ==> AcceptedAs(r, io, old(io.incoming), old(io.history), old(io.wire))
  {
    ghost var id := HeaderOf(io.incoming[..8]).RequestId();
    UnreadAtFirst(id, ps, end, ins, end', rest);
    r := Accept(io);
    closing, left := Refused, [];
    if r.Connected? {
      left := r.connection.input.TheView().tail.content;
      closing := r.connection.Close();
    }
  }

  /**
    * Behind any own records, a record of another stream of the request makes the next read
    * throw; the reader can be closed after that unless its content exceeds the buffer.
    */
  lemma WrongTypeOverlong(src: Source, role: Role, rs: seq<Record>, r: Record, tail: seq<byte>)
    requires 0 < src.id && AllOwn(src, rs) && r.Valid() && r.id == src.id
    requires r.recordType != src.kind.Code() && r.recordType != BEGIN_REQUEST
    ensures var v := Open(src, role, Encode(rs) + (r.Bytes() + tail));
            && v.tail.content == Contents(rs) && Draw(Drained(v)).0 == Threw
            && (Overlong(Drained(v)) <==> |r.content| > src.cap)
  {
    DemuxPrefix(src, rs, r.Bytes() + tail);
    DemuxRecord(src, r, tail);
    HeaderRoundTrip(r.recordType, r.id, |r.content|, |r.padding|);
    assert Contents(rs) + [] == Contents(rs);
  }

  /** Such a record: one byte of data too long for the input buffer, sent to a Responder. */
  lemma OverlongExample(tail: seq<byte>)
    ensures var r := Record(Data.Code(), 1, Zeros(IN_BUFFER_SIZE + 1), []);
            r.Valid() && Overlong(Open(InSource(1), Responder, r.Bytes() + tail))
  {
    var r := Record(Data.Code(), 1, Zeros(IN_BUFFER_SIZE + 1), []);
    WrongTypeOverlong(InSource(1), Responder, [], r, tail);
    assert Encode([]) + (r.Bytes() + tail) == r.Bytes() + tail;
  }

  lemma AlienFirst(src: Source, role: Role, r: Record, tail: seq<byte>)
    requires 0 < src.id && r.Valid() && r.id == src.id
    requires r.recordType != src.kind.Code() && r.recordType != BEGIN_REQUEST
    ensures var t := Open(src, role, r.Bytes() + tail).tail;
            && t.content == [] && t.ending.At? && t.ending.verdict.WrongType? && t.ending.header.RequestId() == src.id
  {
    DemuxRecord(src, r, tail);
    HeaderRoundTrip(r.recordType, r.id, |r.content|, |r.padding|);
  }

  /** An input behind which END_REQUEST is sent twice: an empty record of data to a Responder. */
  lemma SecondEndExample(tail: seq<byte>)
    ensures var r := Record(Data.Code(), 1, [], []); var v := Open(InSource(1), Responder, r.Bytes() + tail);
            r.Valid() && EndsOf(AllRecords(Lived(Begun(Start(1, OUT_BUFFER_SIZE), 0, v), [GetByte])), 1) == 2
  {
    var r := Record(Data.Code(), 1, [], []);
    AlienFirst(InSource(1), Responder, r, tail);
    SecondEnd(Start(1, OUT_BUFFER_SIZE), 0, Open(InSource(1), Responder, r.Bytes() + tail));
  }

  /**
    * On an input stream the guard looks at where the get area starts, not at what is buffered;
    * where it lets the new buffer in, buffered bytes are dropped. The stream goes on as it
    * would have, whatever the peer sends next, exactly when nothing was buffered and the size
    * stays the same.
    */
  lemma SetbufDropsInput(a: InputState, buffered: seq<byte>, cap: nat)
    requires 0 < a.src.id <= MAX_ID && !a.ended && a.ready <= |buffered| && a.src.cap < MAX_CONTENT && cap < MAX_CONTENT
    ensures (forall s: seq<byte> :: SameTail(a, buffered, cap, s)) <==> buffered == [] && cap == a.src.cap
  {
    if buffered != [] {
      DroppedBytes(a, buffered, cap);
    } else if cap != a.src.cap {
      OtherSize(a, cap);
    } else {
      forall s: seq<byte> ensures SameTail(a, buffered, cap, s) {
        assert [] + s == s;
      }
    }
  }

  /** With `s` still to come, the stream goes on the same in a new buffer of size `cap`. */
  predicate SameTail(a: InputState, buffered: seq<byte>, cap: nat, s: seq<byte>) {
    ViewOf(Rebuffered(a, cap, s)).tail == ViewOf(a.(pending := buffered + s)).tail
  }

  /** Bytes beyond a header show in the content or in the rest. */
  lemma BeyondHeader(src: Source, u: nat, p: nat, x: seq<byte>)
    requires |x| >= u + p + HEADER_SIZE
    ensures var t := Demux(src, u, p, x);
            |t.content| >= u && (|x| > u + p + HEADER_SIZE ==> |t.content| > u || t.rest != [])
  {
    DemuxStep(src, u, p, x);
    var h, after := HeaderOf(x[u + p..u + p + HEADER_SIZE]), x[u + p + HEADER_SIZE..];
    if Classify(src, h).Own? && after != [] {
      DueFirst(src, h.ContentLength(), h.paddingLength, after);
    }
  }

  lemma ZerosOnly(src: Source, u: nat, p: nat)
    ensures var t := Demux(src, u, p, Zeros(u + p + HEADER_SIZE)); |t.content| == u && t.rest == []
  {
    DemuxStep(src, u, p, Zeros(u + p + HEADER_SIZE));
  }

  lemma DroppedBytes(a: InputState, buffered: seq<byte>, cap: nat)
    requires !a.ended && a.ready <= |buffered| && buffered != []
    ensures !SameTail(a, buffered, cap, Zeros(a.unread + a.padding + HEADER_SIZE))
  {
    ZerosOnly(a.src.(cap := cap), a.unread, a.padding);
    BeyondHeader(a.src, a.ready + a.unread, a.padding, buffered + Zeros(a.unread + a.padding + HEADER_SIZE));
  }

  /** With nothing behind it, a header leaves the stream open exactly if it is of an own record. */
  lemma HeaderLast(src: Source, u: nat, p: nat, h: Header)
    ensures Demux(src, u, p, Zeros(u + p) + h.Bytes()).ending.Truncated? <==> Classify(src, h).Own?
  {
    var s := Zeros(u + p) + h.Bytes();
    assert s[u + p..u + p + HEADER_SIZE] == h.Bytes() && s[u + p + HEADER_SIZE..] == [];
    DemuxStep(src, u, p, s);
  }

  /** Of two sizes one takes a record that the other does not. */
  lemma SizeMatters(src: Source, cap: nat) returns (h: Header)
    requires 0 < src.id <= MAX_ID && cap != src.cap && cap < MAX_CONTENT && src.cap < MAX_CONTENT
    ensures Classify(src, h).Own? != Classify(src.(cap := cap), h).Own?
  {
    var n := Min(cap, src.cap) + 1;
    h := MakeHeader(src.kind.Code(), src.id, n, 0);
    HeaderRoundTrip(src.kind.Code(), src.id, n, 0);
  }

  lemma SizesDiffer(src: Source, cap: nat, u: nat, p: nat) returns (s: seq<byte>)
    requires 0 < src.id <= MAX_ID && cap != src.cap && cap < MAX_CONTENT && src.cap < MAX_CONTENT
    ensures Demux(src, u, p, s).ending != Demux(src.(cap := cap), u, p, s).ending
  {
    var h := SizeMatters(src, cap);
    s := Zeros(u + p) + h.Bytes();
    HeaderLast(src, u, p, h);
    HeaderLast(src.(cap := cap), u, p, h);
  }

  lemma OtherSize(a: InputState, cap: nat)
    requires 0 < a.src.id <= MAX_ID && !a.ended && a.ready == 0 && cap != a.src.cap && a.src.cap < MAX_CONTENT
              && cap < MAX_CONTENT
    ensures exists s: seq<byte> :: !SameTail(a, [], cap, s)
  {
    var s := SizesDiffer(a.src, cap, a.unread, a.padding);
    assert [] + s == s;
    assert !SameTail(a, [], cap, s);
  }

  /**
    * The assertion at the end of setbuf can fail in the middle of a record: content is due and
    * nothing is buffered, more of it comes and is exposed from the start of the buffer, so the
    * guard is passed; and what is still due does not fit a smaller buffer.
    */
  method ShrinkMidRecord(sb: Streambuf, newBuffer: array<byte>, size: nat) returns (r: Pull, q: Closing)
    requires sb.Reading() && sb.get.cur == sb.get.end == sb.bufferEnd && 0 < sb.unreadContent
    requires 2048 <= size <= 65528 && size <= newBuffer.Length
    modifies sb, sb.buffer, sb.connection.io
    ensures r.Byte? <==> old(sb.connection.io.incoming) != []
    ensures r.Byte? ==>
              && IsLargestMultipleOf8(sb.bufferSize, size) && !q.Refused?
              && (q.Failed? <==> sb.unreadContent > sb.bufferSize)
              && sb.unreadContent + |old(sb.connection.io.incoming)| >= old(sb.unreadContent)
  {
    assert sb.Pending() == sb.connection.io.incoming;
    r := sb.Underflow();
    q := Refused;
    if r.Byte? {
      q := sb.Setbuf(newBuffer, size);
    }
  }

  /** The header of a record of parameters with 4000 bytes of content. */
  const STUB: Header := Header(1, 4, 0, 1, 15, 160, 0, 0)

  lemma StubHeader(a: InputState)
    requires a.src == ParamsSource(1) && !a.ended && a.unread == a.padding == 0 && a.pending == STUB.Bytes() + [0, 0]
    ensures NextHeader(a) == Some(STUB) && Classify(a.src, STUB).Own? && STUB.ContentLength() == 4000
    ensures a.pending[a.padding + HEADER_SIZE..] == [0, 0]
  {
    assert a.pending[0..HEADER_SIZE] == STUB.Bytes();
  }

  /** A new reader has taken the first byte of such a record: of the rest at least 3998 bytes are due. */
  method FirstOfStub(sb: Streambuf)
    requires sb.Reading() && sb.Fresh() && sb.TheSource() == ParamsSource(1)
    requires sb.connection.io.incoming == STUB.Bytes() + [0, 0]
    modifies sb`get, sb`bufferEnd, sb`kind, sb`unreadContent, sb`unreadPadding, sb`endOfStream, sb`mustDiscard
    modifies sb.buffer, sb.connection.io
    ensures sb.Reading() && sb.unreadContent >= 3998 && |sb.Pending()| == 1
  {
    assert sb.Pending() == sb.connection.io.incoming;
    StubHeader(sb.State());
    var r := sb.Underflow();
    var data := sb.TakeExposed(1);
  }

  /** If the second byte is not yet at hand then, the reader is there. */
  method ShrinkExample(sb: Streambuf, smaller: array<byte>) returns (apart: bool, q: Closing)
    requires sb.Reading() && sb.Fresh() && sb.TheSource() == ParamsSource(1)
    requires sb.connection.io.incoming == STUB.Bytes() + [0, 0] && smaller.Length == 2048
    modifies sb, sb.buffer, sb.connection.io
    ensures apart ==> q.Failed?
  {
    FirstOfStub(sb);
    apart := sb.get.cur == sb.get.end == sb.bufferEnd;
    q := Refused;
    if apart {
      assert sb.Pending() == sb.connection.io.incoming;
      var r;
      r, q := ShrinkMidRecord(sb, smaller, 2048);
    }
  }
}
