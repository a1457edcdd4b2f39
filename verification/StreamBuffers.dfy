/** server_Streambuf of src/fcgi/streambuf.cpp, as a reader and as a writer. */
module StreamBuffers {
  import opened Alignment
  import opened Arithmetic
  import opened Basics
  import opened Records
  import opened Input
  import opened Output
  import opened Transport
  import opened BaseConnection

  /** Three pointers into the buffer, set and unset together. */
  datatype Area = Null | Span(base: nat, cur: nat, end: nat)

  /**
    * Results of process_header: two of its return values (a rejected request is never returned),
    * or the end of the call by an exception, by its assertion, or at a management record.
    */
  datatype Processed = ContentMustBeConsumed | ContentMustBeDiscarded | Cut(result: Pull)

  /** Outcomes of close: done, refused by an exception, or ended by its assertion. */
  datatype Closing = Done | Refused | Failed

  function ProcessedAs(src: Source, h: Header): Processed {
    match Classify(src, h)
    case Own => ContentMustBeConsumed
    case EndOfStream => ContentMustBeConsumed
    case Foreign => if h.ContentLength() > src.cap then Cut(Aborted) else ContentMustBeDiscarded
    case Oversized => Cut(Aborted)
    case Management => Cut(Stopped)
    case _ => Cut(Threw)
  }

  /** What process_header writes each time. */
  function SentFor(src: Source, h: Header): seq<Record> {
    var v := Classify(src, h);
    if v.WrongType? || (v.Foreign? && h.recordType == BEGIN_REQUEST) then [Rejection(h)] else []
  }

  /** How one part of underflow's loop body ends: with a result, back at the head, or below. */
  datatype Flow = Ends(result: Pull) | Again | Below

  /** The loop of underflow: how far it has come on the bytes `a.pending`, of which `k` are used. */
  predicate UnderWay(a: InputState, header: seq<byte>, k: nat, u: nat, p: nat, discard: bool) {
    && k <= |a.pending| && !a.ended
    && if |header| < HEADER_SIZE then Gathering(a, header, k, u, p) && !discard
       else Gathered(a, header, k) && Following(a, HeaderOf(header), k, u, p, discard)
  }

  /** Content due at entry, then padding, then the bytes of a header. */
  predicate Gathering(a: InputState, header: seq<byte>, k: nat, u: nat, p: nat) {
    if header == [] then u == a.unread && k + p == a.padding && (u > 0 ==> k == 0)
    else
      && a.unread == 0 && u == p == 0 && k == a.padding + |header| && k <= |a.pending|
      && header == a.pending[a.padding..k]
  }

  predicate Gathered(a: InputState, header: seq<byte>, k: nat) {
    && a.unread == 0 && !a.ended && |header| == HEADER_SIZE
    && a.padding + HEADER_SIZE <= k <= |a.pending| && header == a.pending[a.padding..a.padding + HEADER_SIZE]
  }

  /** Behind an own header its content is due; behind a foreign one, its bytes, again and again. */
  predicate Following(a: InputState, h: Header, k: nat, u: nat, p: nat, discard: bool) {
    if Classify(a.src, h).Own? then
      !discard && k == a.padding + HEADER_SIZE && u == h.ContentLength() && p == h.paddingLength
    else
      Lost(a, h, k) && u <= h.ContentLength() && p <= h.paddingLength && (u > 0 ==> discard)
  }

  predicate Lost(a: InputState, h: Header, k: nat) {
    && Classify(a.src, h).Foreign? && h.ContentLength() <= a.src.cap
    && (h.ContentLength() + h.paddingLength == 0 ==> k == a.padding + HEADER_SIZE)
  }

  /** A header is complete: for the first time, or once more with its bytes used up. */
  predicate Complete(a: InputState, header: seq<byte>, k: nat) {
    Gathered(a, header, k) && (k == a.padding + HEADER_SIZE || Lost(a, HeaderOf(header), k))
  }

  /** The bytes in the place of the next header. */
  function NextBytes(a: InputState): seq<byte> {
    if |a.pending| < a.padding + HEADER_SIZE then [] else a.pending[a.padding..a.padding + HEADER_SIZE]
  }

  /** The lengths that process_header makes due, where nothing was: those of a header it accepts as one. */
  function Announces(h: Header): (nat, nat) {
    if h.IsValid() then (h.ContentLength(), h.paddingLength) else (0, 0)
  }

  /** The bytes a complete header announces. */
  function Extent(header: seq<byte>): nat {
    if |header| == HEADER_SIZE then HeaderOf(header).ContentLength() + HeaderOf(header).paddingLength else 0
  }

  /** The transport ended before the header, or the content behind it, had come. */
  lemma ThrewShort(a: InputState, header: seq<byte>, k: nat, u: nat, p: nat, discard: bool, b: InputState)
    requires UnderWay(a, header, k, u, p, discard) && k == |a.pending|
    requires b.src == a.src && b.unread == u && b.padding == p && b.pending == a.pending[k..]
    ensures Pulled(a, b, Threw) && (|header| < HEADER_SIZE ==> NextHeader(a).None?)
  {
  }

  /** Padding has been skipped. */
  lemma Skipped(a: InputState, header: seq<byte>, k: nat, p: nat, discard: bool, n: nat)
    requires UnderWay(a, header, k, 0, p, discard) && 0 < p && n <= p && k + n <= |a.pending|
    ensures UnderWay(a, header, k + n, 0, p - n, discard)
    ensures a.pending[k..][n..] == a.pending[k + n..]
  {
  }

  lemma JoinPieces(s: seq<byte>, q: nat, k: nat, n: nat)
    requires q <= k && k + n <= |s|
    ensures s[q..k] + s[k..][..n] == s[q..k + n]
  {
    assert s[k..][..n] == s[k..k + n];
  }

  /** `n` more bytes of a header have been copied. */
  lemma Copied(a: InputState, header: seq<byte>, k: nat, discard: bool, n: nat)
    requires UnderWay(a, header, k, 0, 0, discard) && |header| < HEADER_SIZE
    requires n <= HEADER_SIZE - |header| && k + n <= |a.pending|
    ensures k == a.padding + |header|
    ensures var longer := header + a.pending[k..][..n];
            && a.pending[k..][n..] == a.pending[k + n..] && !discard
            && if |longer| < HEADER_SIZE then UnderWay(a, longer, k + n, 0, 0, false) else Complete(a, longer, k + n)
  {
    JoinPieces(a.pending, a.padding, k, n);
    assert a.pending[k..][n..] == a.pending[k + n..];
    assert header == a.pending[a.padding..k];
  }

  /** With its bytes used up a foreign header is complete once more. */
  lemma CompleteAgain(a: InputState, header: seq<byte>, k: nat, discard: bool)
    requires UnderWay(a, header, k, 0, 0, discard) && |header| == HEADER_SIZE
    ensures Complete(a, header, k) && Lost(a, HeaderOf(header), k)
    ensures header + a.pending[k..][..0] == header && a.pending[k..][0..] == a.pending[k..]
  {
  }

  /** A header has been processed: what it announces is due. */
  lemma Announced(a: InputState, header: seq<byte>, k: nat, discard: bool)
    requires Complete(a, header, k)
    requires if Classify(a.src, HeaderOf(header)).Own? then !discard else discard && Lost(a, HeaderOf(header), k)
    ensures UnderWay(a, header, k, HeaderOf(header).ContentLength(), HeaderOf(header).paddingLength, discard)
  {
  }

  /** Content of a foreign record has been discarded. */
  lemma Discarded(a: InputState, header: seq<byte>, k: nat, u: nat, p: nat, n: nat)
    requires UnderWay(a, header, k, u, p, true) && 0 < n <= u && k + n <= |a.pending|
    ensures |header| == HEADER_SIZE && UnderWay(a, header, k + n, u - n, p, u > n)
    ensures a.pending[k..][n..] == a.pending[k + n..]
  {
  }

  /** A header that is not of an own record has decided how the call ends. */
  lemma ProcessedDone(a: InputState, header: seq<byte>, k: nat, b: InputState, r: Pull)
    requires Complete(a, header, k)
    requires var v := Classify(a.src, HeaderOf(header));
             && !v.Own? && (v.EndOfStream? ==> b == Ended(a, HeaderOf(header).paddingLength, a.pending[k..]))
             && r == Fate(a.src, At(v, HeaderOf(header)), a.pending[k..])
    requires r.Threw? ==>
               && !Classify(a.src, HeaderOf(header)).Foreign? && b.src == a.src && b.pending == a.pending[k..]
               && b.unread == Announces(HeaderOf(header)).0 && b.padding == Announces(HeaderOf(header)).1
    ensures Pulled(a, b, r)
  {
  }

  /** What has been written on wire `x` at the head of the loop, with `reach` bytes used or due. */
  predicate Answered(a: InputState, header: seq<byte>, reach: nat, x: seq<byte>, y: seq<byte>) {
    Told(a, header, reach, x) == Some(y)
  }

  /**
    * Wire `x` with a reply to each processing of the header, if that was a whole number of rounds;
    * the header of an own record has no reply.
    */
  function Told(a: InputState, header: seq<byte>, reach: nat, x: seq<byte>): Option<seq<byte>> {
    if |header| < HEADER_SIZE then Some(x)
    else if |header| > HEADER_SIZE || reach < a.padding + HEADER_SIZE then None
    else if Classify(a.src, HeaderOf(header)).Own? then Some(x)
    else if !Classify(a.src, HeaderOf(header)).Foreign? then None
    else
      var used, n, reply := reach - (a.padding + HEADER_SIZE), Extent(header), ReplyTo(a.src, header);
      if n == 0 then Some(x + reply) else if Whole(used, n) then Some(x + Spoken(reply, used, n)) else None
  }

  /** After this header the loop may go on. */
  predicate GoesOn(src: Source, header: seq<byte>)
    requires |header| == HEADER_SIZE
  {
    Classify(src, HeaderOf(header)).Own? || Classify(src, HeaderOf(header)).Foreign?
  }

  /** What process_header writes each time it comes to this header. */
  function ReplyTo(src: Source, header: seq<byte>): seq<byte>
    requires |header| == HEADER_SIZE
  {
    Encode(SentFor(src, HeaderOf(header)))
  }

  predicate Whole(used: nat, n: nat)
    requires n > 0
  {
    used == 0 || (used >= n && Whole(used - n, n))
  }

  /** A reply for each round of `n` bytes. */
  function Spoken(reply: seq<byte>, used: nat, n: nat): seq<byte>
    requires n > 0
  {
    if used < n then [] else Spoken(reply, used - n, n) + reply
  }

  lemma {:induction false} SpokenIsEncoded(r: Record, used: nat, n: nat)
    requires n > 0
    ensures Spoken(r.Bytes(), used, n) == Encode(Copies(r, Times(used, n)))
  {
    if used >= n {
      SpokenIsEncoded(r, used - n, n);
      var m := Times(used - n, n);
      assert Copies(r, m + 1) == Copies(r, m) + [r];
      EncodeConcat(Copies(r, m), [r]);
      EncodeOne(r);
    }
  }

  lemma {:induction false} NothingSpoken(used: nat, n: nat)
    requires n > 0
    ensures Spoken([], used, n) == []
  {
    if used >= n {
      NothingSpoken(used - n, n);
    }
  }

  /** A complete header is processed for the first time, or `again`. */
  predicate Due(a: InputState, header: seq<byte>, k: nat, again: bool) {
    Complete(a, header, k) && if again then Lost(a, HeaderOf(header), k) else k == a.padding + HEADER_SIZE
  }

  /** A header has been processed once more: the reply is one longer. */
  lemma RepliedStep(a: InputState, header: seq<byte>, k: nat, again: bool, x: seq<byte>, y: seq<byte>, z: seq<byte>)
    requires Due(a, header, k, again) && z == y + ReplyTo(a.src, header)
    requires if again then Answered(a, header, k, x, y) && Extent(header) > 0 else y == x
    requires GoesOn(a.src, header)
    ensures Answered(a, header, k + Extent(header), x, z)
  {
    var n, used, reply := Extent(header), k - (a.padding + HEADER_SIZE), ReplyTo(a.src, header);
    if Classify(a.src, HeaderOf(header)).Own? {
      assert y + [] == y;
    } else if again {
      Records.Associate(x, Spoken(reply, used, n), reply);
    } else if n > 0 {
      assert Whole(0, n) && Spoken(reply, 0, n) + reply == reply;
    }
  }

  /** The call has ended with the processing of a header: what was written is the whole reply. */
  lemma RepliedEnd(a: InputState, header: seq<byte>, k: nat, again: bool, x: seq<byte>, y: seq<byte>, z: seq<byte>,
                   b: InputState, r: Pull)
    requires Due(a, header, k, again) && z == y + ReplyTo(a.src, header)
    requires if again then Answered(a, header, k, x, y) else y == x
    requires Pulled(a, b, r) && !r.Byte? && (Lost(a, HeaderOf(header), k) ==> r.Spins?)
    ensures Replied(a, x, z)
  {
    var h, after := HeaderOf(header), a.pending[a.padding + HEADER_SIZE..];
    var sent := SentFor(a.src, h);
    assert sent == Replies(a.src, At(Classify(a.src, h), h), after);
    if again {
      Records.Associate(x, Encode(sent), Encode(sent));
    }
  }

  /** Content that is due has been exposed: that of the record under way, or of the new one. */
  lemma ExposedNext(a: InputState, header: seq<byte>, k: nat, u: nat, p: nat, b: InputState, r: Pull)
    requires u > 0 && UnderWay(a, header, k, u, p, false) && k < |a.pending|
    requires Exposes(a, b, r, u, p, a.pending[k..])
    ensures Pulled(a, b, r)
  {
  }

  /** The last round is not complete. */
  lemma {:induction false} LastRound(x: nat, d: nat, n: nat)
    requires 0 < d <= n && Whole(x + d, n)
    ensures Times(x + d, n) == 1 + Times(x, n)
  {
    if x >= n {
      LastRound(x - n, d, n);
    }
  }

  /** While content of the stream is due nothing has been written. */
  lemma QuietSoFar(a: InputState, header: seq<byte>, k: nat, u: nat, p: nat, x: seq<byte>, y: seq<byte>)
    requires UnderWay(a, header, k, u, p, false) && u > 0 && Answered(a, header, k + u + p, x, y)
    ensures y == x && Replied(a, x, y)
  {
    assert x + [] == x;
  }

  /** Where no bytes come any more what has been written is the whole reply. */
  lemma AnsweredFully(a: InputState, header: seq<byte>, k: nat, u: nat, p: nat, discard: bool, x: seq<byte>,
      y: seq<byte>)
    requires UnderWay(a, header, k, u, p, discard) && Answered(a, header, k + u + p, x, y) && k == |a.pending|
    requires if |header| < HEADER_SIZE then NextHeader(a).None? else u + p > 0 || Extent(header) == 0
    ensures Replied(a, x, y)
  {
    if |header| == HEADER_SIZE {
      if Classify(a.src, HeaderOf(header)).Own? {
        assert x + [] == x;
      } else {
        SaidInAll(a, header, u + p, |a.pending[a.padding + HEADER_SIZE..]|);
      }
    }
  }

  /** The replies to a foreign header by the time no bytes come any more. */
  lemma SaidInAll(a: InputState, header: seq<byte>, due: nat, rest: nat)
    requires |header| == HEADER_SIZE && Classify(a.src, HeaderOf(header)).Foreign?
    requires HeaderOf(header).ContentLength() <= a.src.cap
    requires var n := Extent(header); n > 0 ==> 0 < due <= n && Whole(rest + due, n)
    ensures var n, h, reply := Extent(header), HeaderOf(header), ReplyTo(a.src, header);
            Encode(if h.recordType == BEGIN_REQUEST then Copies(Rejection(h), Rounds(a.src, h, rest)) else [])
            == if n == 0 then reply else Spoken(reply, rest + due, n)
  {
    var n, h := Extent(header), HeaderOf(header);
    if n > 0 {
      LastRound(rest, due, n);
      EncodeOne(Rejection(h));
      SpokenIsEncoded(Rejection(h), rest + due, n);
      NothingSpoken(rest + due, n);
    } else {
      assert Copies(Rejection(h), 1) == [Rejection(h)];
    }
  }

  /** Unless the header is foreign, padding and header are all that the loop uses. */
  lemma UsedAtMost(a: InputState, header: seq<byte>, k: nat, u: nat, p: nat, discard: bool)
    requires UnderWay(a, header, k, u, p, discard)
    ensures MeetsForeign(a) || k <= a.padding + HEADER_SIZE
  {
  }

  function Repeated(s: seq<byte>, n: nat): seq<byte> {
    if n == 0 then [] else Repeated(s, n - 1) + s
  }

  /** Delivering a byte or the end of file writes nothing. */
  lemma RepliedQuietly(a: InputState, b: InputState, r: Pull, before: seq<byte>, after: seq<byte>)
    requires Pulled(a, b, r) && Replied(a, before, after) && (r.Byte? || r.Eof?)
    ensures after == before
  {
  }

  class Streambuf {
    const connection: ServerConnection
    var kind: StreamType
    var mustDiscard: bool
    var endOfStream: bool
    var mustSendEnd: bool
    var consumedOnce: bool
    var buffer: array<byte>
    var bufferEnd: nat
    var bufferSize: nat
    var unreadContent: nat
    var unreadPadding: nat
    var get: Area
    var put: Area

    constructor (connection: ServerConnection, buffer: array<byte>, bufferSize: nat, kind: StreamType)
      requires 2048 <= bufferSize <= 65528 && bufferSize <= buffer.Length
      requires 0 < connection.requestId <= MAX_ID
      requires kind.Params? || kind.Out? || kind.Err?
      ensures this.connection == connection && this.buffer == buffer && this.kind == kind
      ensures IsLargestMultipleOf8(this.bufferSize, bufferSize)
      ensures if IsReader() then Reading() && Fresh() else Writing() && Held() == [] && !consumedOnce
    {
      this.connection, this.kind := connection, kind;
      mustDiscard, endOfStream, mustSendEnd, consumedOnce := false, false, false, false;
      this.buffer, bufferEnd, this.bufferSize := buffer, 0, 0;
      unreadContent, unreadPadding := 0, 0;
      get, put := Null, Null;
      new;
      var r := Setbuf(buffer, bufferSize);
      assert r.Done? && InvariantOk();
    }

    /**
      * Installs a buffer, truncated to a multiple of 8, unless the areas have moved off the
      * start of the current one. What the current buffer holds is dropped. On an open reader
      * the assertion at the end fails exactly where more content is due than the new buffer holds.
      */
    method Setbuf(newBuffer: array<byte>, size: nat) returns (r: Closing)
      requires 2048 <= size <= 65528 && size <= newBuffer.Length
      modifies this`buffer, this`bufferSize, this`bufferEnd, this`get, this`put
      ensures r.Refused? <==> !old((get.Null? || get.base == 0) && (put.Null? || put.base == HEADER_SIZE))
      ensures r.Refused? ==> buffer == old(buffer) && bufferSize == old(bufferSize) && bufferEnd == old(bufferEnd)
                             && get == old(get) && put == old(put)
      ensures !r.Refused? ==> buffer == newBuffer && IsLargestMultipleOf8(bufferSize, size)
      ensures !r.Refused? ==> if IsReader() then get == Span(0, 0, 0) && bufferEnd == 0 && put.Null?
                              else get.Null? && put == Span(HEADER_SIZE, HEADER_SIZE, bufferSize - 1)
      ensures !r.Refused? ==> r == if InvariantOk() then Done else Failed
      ensures old(Reading()) && !r.Refused? ==> r == if unreadContent <= bufferSize then Done else Failed
      ensures old(Reading()) && r.Done? ==> Reading()
      ensures old(Writing()) ==> r.Done? && Writing() && TheWriter() == Writer([], consumedOnce)
      ensures old(Reading()) && !r.Refused? ==>
                Bounded() && State() == Rebuffered(old(State()), bufferSize, connection.io.incoming)
    {
      if (!get.Null? && get.base != 0) || (!put.Null? && put.base != HEADER_SIZE) {
        return Refused;
      }
      Install(newBuffer, size);
      r := if InvariantOk() then Done else Failed;
    }

    /** The part of setbuf behind its guard. */
    method Install(newBuffer: array<byte>, size: nat)
      requires 2048 <= size <= 65528 && size <= newBuffer.Length
      modifies this`buffer, this`bufferSize, this`bufferEnd, this`get, this`put
      ensures buffer == newBuffer && IsLargestMultipleOf8(bufferSize, size) && 2048 <= bufferSize <= size
      ensures if IsReader() then get == Span(0, 0, 0) && bufferEnd == 0 && put.Null?
              else get.Null? && put == Span(HEADER_SIZE, HEADER_SIZE, bufferSize - 1)
    {
      RoundDownTo8(size);
      var alignment := 8;
      var padding := PaddingFor8(size);
      buffer := newBuffer;
      bufferSize := size - (alignment - padding) % alignment;
      if IsReader() {
        get := Span(0, 0, 0);
        bufferEnd := 0;
        put := Null;
      } else {
        get := Null;
        put := Span(HEADER_SIZE, HEADER_SIZE, bufferSize - 1);
      }
    }

    predicate IsReader()
      reads this
    {
      kind.In? || kind.Params? || kind.Data?
    }

    predicate IsClosed()
      reads this
    {
      if IsReader() then get.Null? else put.Null?
    }

    predicate IsReadyToFilterData()
      reads this
    {
      !IsClosed() && connection.role.Filter? && kind.In? && endOfStream
    }

    predicate InvariantOk()
      reads this
    {
      && (IsReader() ==> bufferEnd <= bufferSize)
      && 2048 <= bufferSize <= 65528 && bufferSize % 8 == 0
      && unreadContent <= bufferSize && unreadContent <= MAX_CONTENT
      && unreadPadding <= bufferSize && unreadPadding <= MAX_PADDING
      && (!IsReader() || kind.Params? || (connection.role.Responder? && kind.In?)
          || (connection.role.Filter? && (kind.In? || kind.Data?)))
      && ((IsClosed() && (IsReader() || endOfStream) && get.Null? && put.Null?)
          || (IsReader() && !get.Null? && put.Null?)
          || (!IsReader() && get.Null? && !put.Null?))
      && (IsReader() || IsClosed()
          || (put.base <= put.cur <= put.end && (endOfStream || put.base == HEADER_SIZE)))
      && (!IsReader() || IsClosed() || get.base <= get.cur <= get.end <= bufferEnd)
    }

    predicate Placed()
      reads this
    {
      && 0 < connection.requestId <= MAX_ID
      && 2048 <= bufferSize <= 65528 && bufferSize % 8 == 0 && bufferSize <= buffer.Length
    }

    // -------------------------------------------------------------------------
    // As a writer
    // -------------------------------------------------------------------------

    /** The put area lies between the reserved header and the reserved last byte. */
    predicate Writable()
      reads this
    {
      && Placed() && !IsReader() && get.Null?
      && put.Span? && put.base == HEADER_SIZE <= put.cur <= put.end == bufferSize - 1
      && unreadContent == 0 && unreadPadding == 0
    }

    /** An open writer between two calls. */
    predicate Writing()
      reads this
    {
      Writable() && InvariantOk() && !endOfStream && !mustSendEnd
    }

    /** The bytes accepted and not yet sent. */
    ghost function Held(): seq<byte>
      requires Writable()
      reads this, buffer
    {
      buffer[put.base..put.cur]
    }

    ghost function TheWriter(): Writer
      requires Writable()
      reads this, buffer
    {
      Writer(Held(), consumedOnce)
    }

    ghost function TheLane(): (lane: Lane)
      requires Writable()
      reads this
      ensures lane.Valid()
    {
      Lane(kind, connection.requestId, bufferSize - 9)
    }

    /** Lays bytes over the buffer. */
    method LayBytes(at: nat, bytes: seq<byte>)
      requires at + |bytes| <= buffer.Length
      modifies buffer
      ensures buffer[at..at + |bytes|] == bytes
      ensures buffer[..at] == old(buffer[..at]) && buffer[at + |bytes|..] == old(buffer[at + |bytes|..])
    {
      forall i | at <= i < at + |bytes| {
        buffer[i] := bytes[i - at];
      }
    }

    /** Lays bytes behind the first `at`. */
    method AppendAt(at: nat, bytes: seq<byte>)
      requires at + |bytes| <= buffer.Length
      modifies buffer
      ensures buffer[..at + |bytes|] == old(buffer[..at]) + bytes
    {
      LayBytes(at, bytes);
      assert buffer[..at + |bytes|] == buffer[..at] + buffer[at..at + |bytes|];
    }

    /** Stores `ch` behind the put area's bytes, at epptr if need be. */
    method StoreExtra(ch: Option<byte>)
      requires Writable()
      modifies this`put, buffer
      ensures put == Span(HEADER_SIZE, old(put.cur) + (if ch.Some? then 1 else 0), bufferSize - 1)
      ensures put.cur <= bufferSize && buffer[HEADER_SIZE..put.cur] == old(Held()) + if ch.Some? then [ch.value] else []
    {
      if ch.Some? {
        assert put.cur <= put.end;
        buffer[put.cur] := ch.value;
        put := put.(cur := put.cur + 1);
      }
    }

    /** Pads the content in front of the put pointer. */
    method PadInPlace(ghost lane: Lane, ghost content: seq<byte>) returns (paddingLength: nat)
      requires Placed() && lane == Lane(kind, connection.requestId, bufferSize - 9) && lane.Valid()
      requires put.Span? && HEADER_SIZE < put.cur <= bufferSize && put.end == bufferSize - 1
      requires content == buffer[HEADER_SIZE..put.cur]
      modifies this`put, buffer
      ensures put.Span? && put.cur == HEADER_SIZE + |content| + paddingLength <= bufferSize
      ensures paddingLength == Padding8(|content|) && buffer[HEADER_SIZE..put.cur] == content + Zeros(paddingLength)
    {
      FrameFits(lane, content);
      paddingLength := PaddingFor8(put.cur - HEADER_SIZE);
      assert paddingLength <= put.end - put.cur + 1;
      LayBytes(put.cur, Zeros(paddingLength));
      assert buffer[HEADER_SIZE..put.cur] == buffer[..put.cur][HEADER_SIZE..];
      put := put.(cur := put.cur + paddingLength);
    }

    /** Lays a header into the space reserved for it. */
    method LayHeader(bytes: seq<byte>)
      requires |bytes| == HEADER_SIZE && put.Span? && HEADER_SIZE <= put.cur <= buffer.Length
      modifies buffer
      ensures buffer[..put.cur] == bytes + old(buffer[HEADER_SIZE..put.cur])
    {
      LayBytes(0, bytes);
      assert buffer[HEADER_SIZE..put.cur] == buffer[HEADER_SIZE..][..put.cur - HEADER_SIZE];
      assert buffer[..put.cur] == buffer[0..0 + HEADER_SIZE] + buffer[HEADER_SIZE..put.cur];
    }

    /** Turns the content in front of the put pointer into a record that fills the buffer up to it. */
    method FrameInPlace(ghost lane: Lane, ghost content: seq<byte>)
      requires Placed() && lane == Lane(kind, connection.requestId, bufferSize - 9) && lane.Valid()
      requires put.Span? && HEADER_SIZE < put.cur <= bufferSize && put.end == bufferSize - 1
      requires content == buffer[HEADER_SIZE..put.cur]
      modifies this`put, buffer
      ensures put.Span? && HEADER_SIZE < put.cur <= bufferSize && buffer[..put.cur] == Frame(lane, content).Bytes()
    {
      var contentLength := put.cur - HEADER_SIZE;
      // Aligning the content by padding if necessary.
      var paddingLength := PadInPlace(lane, content);
      // Injecting the header.
      var header := MakeHeader(kind.Code(), connection.requestId, contentLength, paddingLength);
      LayHeader(header.Bytes());
      Records.Associate(header.Bytes(), content, Zeros(paddingLength));
    }

    /** The part of overflow that turns a non-empty put area into a record and sends it. */
    method SendPutArea(ch: Option<byte>)
      requires Writable() && put.base < put.cur
      modifies this`put, this`consumedOnce, buffer, connection.io
      ensures connection.io.wire == old(connection.io.wire)
                + Frame(old(TheLane()), old(Held()) + if ch.Some? then [ch.value] else []).Bytes()
      ensures consumedOnce && connection.io.incoming == old(connection.io.incoming)
    {
      ghost var lane := TheLane();
      StoreExtra(ch);
      FrameInPlace(lane, buffer[HEADER_SIZE..put.cur]);

      // Sending the record.
      if put.cur > HEADER_SIZE {
        connection.io.Write(buffer, put.cur);
        consumedOnce := true;
      }
    }

    /** Lays what ends the stream over the buffer, whose space before pbase is used as well. */
    method LayEndRecords() returns (dataSize: nat)
      requires Writable() && put.cur == put.base
      modifies buffer
      ensures dataSize <= buffer.Length
      ensures buffer[..dataSize] == Encode(EndRecords(TheLane(), consumedOnce, connection.applicationStatus))
    {
      EndRecordBytes(TheLane(), consumedOnce, connection.applicationStatus);
      dataSize := 0;
      var isEmpty := put.cur == put.base && !consumedOnce;
      if !kind.Err? || !isEmpty {
        AppendAt(dataSize, MakeHeader(kind.Code(), connection.requestId, 0, 0).Bytes());
        dataSize := dataSize + HEADER_SIZE;
      }
      if kind.Out? {
        var record := EndRequest(connection.requestId, connection.applicationStatus, RequestComplete).Bytes();
        AppendAt(dataSize, record);
        dataSize := dataSize + |record|;
      }
    }

    /** The part of overflow that sends what ends the stream. */
    method SendEndRecords()
      requires Writable() && put.cur == put.base
      modifies this`mustSendEnd, this`endOfStream, buffer, connection.io
      ensures connection.io.wire ==
                old(connection.io.wire) + Encode(EndRecords(TheLane(), consumedOnce, connection.applicationStatus))
      ensures !mustSendEnd && endOfStream && connection.io.incoming == old(connection.io.incoming)
    {
      var dataSize := LayEndRecords();
      if dataSize > 0 {
        connection.io.Write(buffer, dataSize);
      } else {
        assert connection.io.wire + buffer[..0] == connection.io.wire;
      }
      mustSendEnd := false;
      endOfStream := true;
    }

    /** The first part of overflow: sends the put area, if it holds anything, and empties it. */
    method SendHeld(ch: Option<byte>)
      requires Writable()
      modifies this`put, this`consumedOnce, buffer, connection.io
      ensures Writable() && connection.io.incoming == old(connection.io.incoming)
      ensures var step := Overflowed(TheLane(), old(TheWriter()), if ch.Some? then [ch.value] else []);
              TheWriter() == step.writer && connection.io.wire == old(connection.io.wire) + Encode(step.records)
    {
      assert put.base == HEADER_SIZE;
      if put.cur != put.base {
        ghost var step := Overflowed(TheLane(), TheWriter(), if ch.Some? then [ch.value] else []);
        SendPutArea(ch);
        EncodeOne(step.records[0]);
      } else {
        assert connection.io.wire + [] == connection.io.wire;
      }
      put := Span(HEADER_SIZE, HEADER_SIZE, bufferSize - 1);
    }

    /**
      * Sends the put area with the extra character, then what ends the stream if that is asked
      * for. Answers false, for eof, on a stream that has ended.
      */
    method Overflow(ch: Option<byte>) returns (ok: bool)
      requires Writable() && InvariantOk()
      modifies this`put, this`consumedOnce, this`mustSendEnd, this`endOfStream, buffer, connection.io
      ensures Writable() && InvariantOk() && connection.io.incoming == old(connection.io.incoming)
      ensures old(endOfStream) ==>
                !ok && endOfStream && put == old(put) && mustSendEnd == old(mustSendEnd)
                && connection.io.wire == old(connection.io.wire)
      ensures !old(endOfStream) ==>
                var step := Overflowed(TheLane(), old(TheWriter()), if ch.Some? then [ch.value] else []);
                && ok && TheWriter() == step.writer && !mustSendEnd && endOfStream == old(mustSendEnd)
                && connection.io.wire == old(connection.io.wire) + Encode(step.records)
                     + if old(mustSendEnd)
                       then Encode(EndRecords(TheLane(), consumedOnce, connection.applicationStatus)) else []
    {
      if endOfStream {
        return false;
      }
      SendHeld(ch);
      if mustSendEnd {
        SendEndRecords();
      } else {
        assert connection.io.wire + [] == connection.io.wire;
      }
      ok := true;
    }

    /** sync: 0 for success, -1 for failure. */
    method Sync() returns (r: int)
      requires Writable() && InvariantOk() && !endOfStream
      modifies this`put, this`consumedOnce, this`mustSendEnd, this`endOfStream, buffer, connection.io
      ensures Writable() && InvariantOk() && connection.io.incoming == old(connection.io.incoming)
      ensures r == 0 && !mustSendEnd && endOfStream == old(mustSendEnd)
      ensures !old(mustSendEnd) ==>
                var step := Overflowed(TheLane(), old(TheWriter()), []);
                Writing() && TheWriter() == step.writer
                  && connection.io.wire == old(connection.io.wire) + Encode(step.records)
      ensures old(mustSendEnd) ==>
                connection.io.wire == old(connection.io.wire)
                  + Encode(ClosingRecords(TheLane(), old(TheWriter()), connection.applicationStatus))
    {
      ghost var w, wire := TheWriter(), connection.io.wire;
      var ok := Overflow(None);
      ClosingBytes(TheLane(), w, connection.applicationStatus, wire);
      assert connection.io.wire + [] == connection.io.wire;
      r := if ok then 0 else -1;
    }

    /** sputc: stores the character while there is room, else hands it to overflow. */
    method Sputc(b: byte) returns (ok: bool)
      requires Writing()
      modifies this`put, this`consumedOnce, this`mustSendEnd, this`endOfStream, buffer, connection.io
      ensures Writing() && ok && connection.io.incoming == old(connection.io.incoming)
      ensures var step := PutByte(TheLane(), old(TheWriter()), b);
              TheWriter() == step.writer && connection.io.wire == old(connection.io.wire) + Encode(step.records)
    {
      if put.cur < put.end {
        buffer[put.cur] := b;
        put := put.(cur := put.cur + 1);
        ok := true;
        assert connection.io.wire + [] == connection.io.wire;
      } else {
        ok := Overflow(Some(b));
      }
    }

    /** Copies a piece into the room left in the put area. */
    method StorePiece(bs: seq<byte>)
      requires Writing() && put.cur + |bs| <= put.end
      modifies this`put, buffer
      ensures Writing() && TheWriter() == Writer(old(Held()) + bs, consumedOnce)
      ensures put == Span(HEADER_SIZE, old(put.cur) + |bs|, bufferSize - 1)
    {
      LayBytes(put.cur, bs);
      assert buffer[HEADER_SIZE..put.cur] == buffer[..put.cur][HEADER_SIZE..];
      put := put.(cur := put.cur + |bs|);
    }

    /** One round of xsputn: what fits, then one byte through overflow. */
    method PutSome(bs: seq<byte>) returns (n: nat)
      requires Writing() && bs != []
      modifies this`put, this`consumedOnce, this`mustSendEnd, this`endOfStream, buffer, connection.io
      ensures Writing() && 0 < n <= |bs| && connection.io.incoming == old(connection.io.incoming)
      ensures Wrote(TheLane(), old(TheWriter()), old(connection.io.wire), bs[..n], TheWriter(), connection.io.wire)
    {
      n := Min(put.end - put.cur, |bs|);
      ghost var lane, w := TheLane(), TheWriter();
      PutFits(lane, w, bs[..n]);
      StorePiece(bs[..n]);
      if n < |bs| {
        ghost var full := TheWriter();
        var ok := Overflow(Some(bs[n]));
        PutConcat(lane, w, bs[..n], [bs[n]]);
        PutOne(lane, full, bs[n]);
        assert bs[..n] + [bs[n]] == bs[..n + 1];
        n := n + 1;
      } else {
        assert connection.io.wire + [] == connection.io.wire;
      }
    }

    /** xsputn: puts all the bytes, as sputc would one after the other. */
    method Xsputn(bs: seq<byte>)
      requires Writing()
      modifies this`put, this`consumedOnce, this`mustSendEnd, this`endOfStream, buffer, connection.io
      ensures Writing() && connection.io.incoming == old(connection.io.incoming)
      ensures Wrote(TheLane(), old(TheWriter()), old(connection.io.wire), bs, TheWriter(), connection.io.wire)
    {
      var n := 0;
      ghost var lane, w, wire := TheLane(), TheWriter(), connection.io.wire;
      WroteNothing(lane, w, wire);
      assert bs[..0] == [];
      while n < |bs|
        invariant n <= |bs| && Writing() && TheLane() == lane && connection.io.incoming == old(connection.io.incoming)
        invariant Wrote(lane, w, wire, bs[..n], TheWriter(), connection.io.wire)
      {
        ghost var v, y := TheWriter(), connection.io.wire;
        var more := PutSome(bs[n..]);
        WroteTwice(lane, w, wire, bs[..n], v, y, bs[n..][..more], TheWriter(), connection.io.wire);
        assert bs[..n] + bs[n..][..more] == bs[..n + more];
        n := n + more;
      }
      assert bs[..n] == bs;
    }

    /**
      * Closes the stream. A writer first sends what it holds and what ends the stream, unless a
      * Filter has yet to read content of its standard input that has arrived.
      */
    method Close(input: Streambuf) returns (r: Closing)
      requires !IsClosed() ==> if IsReader() then Settled() else Writing()
      requires !IsClosed() && !IsReader() ==>
                 input.IsReader() && !input.IsClosed() && (connection.role.Authorizer? || !input.kind.Params?)
      modifies this`get, this`put, this`consumedOnce, this`mustSendEnd, this`endOfStream, buffer, connection.io
      ensures connection.io.incoming == old(connection.io.incoming)
      ensures old(IsClosed()) ==>
                r.Done? && get == old(get) && put == old(put) && connection.io.wire == old(connection.io.wire)
      ensures old(!IsClosed() && IsReader()) ==>
                && IsClosed() && connection.io.wire == old(connection.io.wire)
                && r == (if unreadContent <= bufferSize then Done else Failed) && (r.Done? ==> InvariantOk())
      ensures old(!IsClosed() && !IsReader()) ==>
                if MayClose(connection.role, old(input.kind), old(input.unreadContent)) then
                  && r.Done? && IsClosed() && InvariantOk()
                  && connection.io.wire == old(connection.io.wire) +
                       Encode(ClosingRecords(old(TheLane()), old(TheWriter()), old(connection.applicationStatus)))
                else
                  && r.Refused? && Writing() && TheWriter() == old(TheWriter()) && buffer[..] == old(buffer[..])
                  && put == old(put) && connection.io.wire == old(connection.io.wire)
    {
      if IsClosed() {
        return Done;
      }
      if !IsReader() {
        var ok := EndStream(input);
        if !ok {
          return Refused;
        }
      }
      r := Unset();
    }

    /** The part of close that a writer goes through first; false for its exception. */
    method EndStream(input: Streambuf) returns (ok: bool)
      requires Writing() && input.IsReader() && !input.IsClosed()
                && (connection.role.Authorizer? || !input.kind.Params?)
      modifies this`put, this`consumedOnce, this`mustSendEnd, this`endOfStream, buffer, connection.io
      ensures connection.io.incoming == old(connection.io.incoming)
      ensures ok <==> MayClose(connection.role, input.kind, input.unreadContent)
      ensures ok ==>
                && Writable() && InvariantOk() && endOfStream && !mustSendEnd
                && connection.io.wire == old(connection.io.wire) +
                     Encode(ClosingRecords(old(TheLane()), old(TheWriter()), connection.applicationStatus))
      ensures !ok ==>
                && Writing() && TheWriter() == old(TheWriter()) && buffer[..] == old(buffer[..])
                && put == old(put) && connection.io.wire == old(connection.io.wire)
    {
      ok := connection.role != Filter || input.kind == Data || input.unreadContent == 0;
      if ok {
        mustSendEnd := true;
        var s := Sync();
        assert endOfStream && !mustSendEnd;
      }
    }

    /** The last part of close: no area is left, and the invariant is asserted. */
    method Unset() returns (r: Closing)
      requires if IsReader() then Settled() else Writable() && endOfStream
      modifies this`get, this`put
      ensures IsClosed() && r == (if !IsReader() || unreadContent <= bufferSize then Done else Failed)
      ensures r.Done? ==> InvariantOk()
    {
      get := Null;
      put := Null;
      assert IsClosed();
      r := if InvariantOk() then Done else Failed;
    }

    // -------------------------------------------------------------------------
    // As a reader
    // -------------------------------------------------------------------------

    /** An open reader between two calls. */
    predicate Reading()
      reads this
    {
      && Placed() && InvariantOk() && IsReader() && get.Span?
      && !mustDiscard && !mustSendEnd && (endOfStream ==> get.cur == get.end && unreadContent == 0)
    }

    /** Nothing read yet. */
    predicate Fresh()
      reads this
    {
      !endOfStream && get == Span(0, 0, 0) && bufferEnd == 0 && unreadContent == 0 && unreadPadding == 0
    }

    predicate Bounded()
      reads this
    {
      get.Span? && get.cur <= bufferEnd <= bufferSize <= buffer.Length
    }

    /** What holds of an open reader at all times, even after a failed read. */
    predicate Settled()
      reads this
    {
      && Placed() && Bounded() && IsReader() && put.Null?
      && (kind.Params? || (connection.role.Responder? && kind.In?)
          || (connection.role.Filter? && (kind.In? || kind.Data?)))
      && unreadContent <= MAX_CONTENT && unreadPadding <= MAX_PADDING
    }

    ghost function Pending(): seq<byte>
      requires Bounded()
      reads this, buffer, connection.io
    {
      buffer[get.cur..bufferEnd] + connection.io.incoming
    }

    ghost function TheSource(): Source
      reads this
    {
      Source(kind, connection.requestId, bufferSize)
    }

    ghost function State(): InputState
      requires Bounded()
      reads this, buffer, connection.io
    {
      InputState(TheSource(), connection.role, endOfStream, unreadContent, unreadPadding,
                 if get.end >= get.cur then get.end - get.cur else 0, Pending())
    }

    /** A reader in the middle of underflow: the get pointer may be past the get area. */
    predicate Midway()
      reads this
    {
      Settled() && get.base <= get.cur && !endOfStream && !mustSendEnd && unreadContent <= bufferSize
    }

    /** In an underflow that started in state `a` and has used `k` bytes. */
    ghost predicate Looping(a: InputState, header: seq<byte>, k: nat)
      reads this, buffer, connection.io
    {
      && Midway() && a.src == TheSource() && a.role == connection.role
      && UnderWay(a, header, k, unreadContent, unreadPadding, mustDiscard)
      && Pending() == a.pending[k..]
    }

    /** At the head of the loop something is due, or a foreign header came with nothing at all. */
    predicate AtHead(header: seq<byte>)
      reads this
    {
      |header| == HEADER_SIZE && unreadContent + unreadPadding == 0 ==>
        get.Span? && get.cur == bufferEnd && Extent(header) == 0
    }

    /** Reads from the transport once everything buffered is used. */
    method Refill(ghost a: InputState, ghost header: seq<byte>, ghost k: nat, ghost wire: seq<byte>)
        returns (more: bool)
      requires Looping(a, header, k) && AtHead(header) && get.cur == bufferEnd
      requires Answered(a, header, k + unreadContent + unreadPadding, wire, connection.io.wire)
      modifies this`bufferEnd, this`get, buffer, connection.io
      ensures connection.io.wire == old(connection.io.wire)
      ensures Asked(old(connection.io.history), connection.io.history, bufferSize, 1)
      ensures Settled() && (more ==> get.cur == 0 < bufferEnd && Looping(a, header, k))
      ensures !more ==> Pulled(a, State(), Threw) && Replied(a, wire, connection.io.wire)
    {
      var count := connection.io.Read(buffer, bufferSize);
      more := count > 0;
      if more {
        bufferEnd := count;
        get := Span(0, 0, bufferEnd);
      } else {
        ThrewShort(a, header, k, unreadContent, unreadPadding, mustDiscard, State());
        AnsweredFully(a, header, k, unreadContent, unreadPadding, mustDiscard, wire, connection.io.wire);
      }
    }

    /** Moves the get pointer, possibly past the end of the get area. */
    method Gbump(count: nat)
      requires Bounded() && get.cur + count <= bufferEnd
      modifies this`get
      ensures get == Span(old(get.base), old(get.cur) + count, old(get.end))
      ensures Bounded() && count <= |old(Pending())| && Pending() == old(Pending())[count..]
    {
      get := get.(cur := get.cur + count);
    }

    /** The get area starts at the get pointer and has all of the content at hand. */
    predicate AllExposed()
      reads this
    {
      get.Span? && get.base == get.cur && (unreadContent == 0 || get.end == bufferEnd)
    }

    /** Puts the content at hand into the get area. */
    method ExposeContent(ghost a: InputState, ghost header: seq<byte>, ghost k: nat, count: nat) returns (r: Pull)
      requires Looping(a, header, k) && !mustDiscard && get.cur < bufferEnd
      requires 0 < unreadContent && count == Min(unreadContent, bufferEnd - get.cur)
      modifies this`unreadContent, this`get
      ensures r.Byte? && Reading() && Pulled(a, State(), r) && get.base == old(get.cur) && AllExposed()
    {
      ghost var u := unreadContent;
      unreadContent := unreadContent - count;
      get := Span(get.cur, get.cur, get.cur + count);
      assert InvariantOk();
      r := Byte(buffer[get.cur]);
      ExposedNext(a, header, k, u, unreadPadding, State(), r);
    }

    /** Passes over the content at hand of a foreign record. */
    method DiscardContent(ghost a: InputState, ghost header: seq<byte>, ghost k: nat, count: nat) returns (flow: Flow)
      requires Looping(a, header, k) && mustDiscard && get.cur < bufferEnd
      requires 0 < unreadContent && count == Min(unreadContent, bufferEnd - get.cur)
      modifies this`unreadContent, this`get, this`mustDiscard
      ensures Looping(a, header, k + count) && |header| == HEADER_SIZE && unreadContent == old(unreadContent) - count
      ensures !flow.Ends? && (flow.Again? <==> unreadContent > 0)
    {
      Discarded(a, header, k, unreadContent, unreadPadding, count);
      unreadContent := unreadContent - count;
      Gbump(count);
      if unreadContent > 0 {
        return Again;
      }
      mustDiscard := false;
      flow := Below;
    }

    /** Skips padding that is due. */
    method SkipPadding(ghost a: InputState, ghost header: seq<byte>, ghost k: nat) returns (flow: Flow, ghost k': nat)
      requires Looping(a, header, k) && 0 < unreadPadding && unreadContent == 0
      modifies this`unreadPadding, this`get
      ensures Looping(a, header, k') && !flow.Ends? && (flow.Again? <==> unreadPadding > 0)
      ensures k <= k' && (old(get.cur) < bufferEnd ==> k < k') && k' + unreadPadding == k + old(unreadPadding)
    {
      var count := Min(unreadPadding, bufferEnd - get.cur);
      Skipped(a, header, k, unreadPadding, mustDiscard, count);
      unreadPadding := unreadPadding - count;
      Gbump(count);
      k' := k + count;
      assert Pending() == a.pending[k'..];
      flow := if unreadPadding > 0 then Again else Below;
    }

    /** Copies what is at hand of a header and moves past it. */
    method Accumulate(ghost a: InputState, header: seq<byte>, ghost k: nat) returns (longer: seq<byte>, ghost k': nat)
      requires Looping(a, header, k) && unreadContent == unreadPadding == 0
      modifies this`get
      ensures |header| < HEADER_SIZE ==> |header| <= |longer| <= HEADER_SIZE && k' == k + (|longer| - |header|)
      ensures |header| < HEADER_SIZE && old(get.cur) < bufferEnd ==> k < k'
      ensures |header| == HEADER_SIZE ==> longer == header && k' == k && get == old(get)
      ensures |longer| < HEADER_SIZE ==> Looping(a, longer, k')
      ensures |longer| == HEADER_SIZE ==>
                Complete(a, longer, k') && Midway() && Pending() == a.pending[k'..]
                && (mustDiscard ==> Classify(a.src, HeaderOf(longer)).Foreign?)
                && if |header| == HEADER_SIZE then Lost(a, HeaderOf(longer), k') else k' == a.padding + HEADER_SIZE
    {
      var count := Min(HEADER_SIZE - |header|, bufferEnd - get.cur);
      longer := header + buffer[get.cur..get.cur + count];
      assert longer == header + Pending()[..count];
      if |header| < HEADER_SIZE {
        Copied(a, header, k, mustDiscard, count);
      } else {
        CompleteAgain(a, header, k, mustDiscard);
      }
      Gbump(count);
      k' := k + count;
    }

    method ProcessHeader(header: Header) returns (r: Processed)
      requires Settled() && InvariantOk()
      modifies this`unreadContent, this`unreadPadding, connection.io
      ensures Settled() && Pending() == old(Pending()) && connection.io.history == old(connection.io.history)
      ensures connection.io.incoming == old(connection.io.incoming)
      ensures r == ProcessedAs(TheSource(), header) && (r.Cut? ==> !r.result.Eof? && !r.result.Byte?)
      ensures unreadContent == if header.IsValid() then header.ContentLength() else old(unreadContent)
      ensures unreadPadding == if header.IsValid() then header.paddingLength else old(unreadPadding)
      ensures !r.Cut? ==> InvariantOk() && header.IsValid()
      ensures connection.io.wire == old(connection.io.wire) + Encode(SentFor(TheSource(), header))
    {
      assert connection.io.wire == connection.io.wire + [];
      EncodeOne(Rejection(header));
      if !header.IsValid() {
        return Cut(Threw);
      }
      unreadContent := header.ContentLength();
      unreadPadding := header.paddingLength;
      if header.recordType == BEGIN_REQUEST {
        connection.io.WriteBytes(Rejection(header).Bytes());
        r := ContentMustBeDiscarded;
      } else if header.IsManagement() {
        return Cut(Stopped);
      } else if header.RequestId() != connection.requestId {
        r := ContentMustBeDiscarded;
      } else if header.recordType == kind.Code() {
        r := ContentMustBeConsumed;
      } else {
        connection.io.WriteBytes(Rejection(header).Bytes());
        return Cut(Threw);
      }
      if !InvariantOk() {
        return Cut(Aborted);
      }
    }

    /** The part of underflow's loop that deals with a complete header. */
    method Dispatch(ghost a: InputState, header: seq<byte>, ghost k: nat) returns (flow: Flow)
      requires Midway() && unreadContent == unreadPadding == 0 && a.src == TheSource() && a.role == connection.role
      requires Complete(a, header, k) && Pending() == a.pending[k..]
      requires mustDiscard ==> Classify(a.src, HeaderOf(header)).Foreign?
      modifies this`get, this`kind, this`unreadContent, this`unreadPadding, this`endOfStream, this`mustDiscard
      modifies connection.io
      ensures kind == old(kind) || kind.Data?
      ensures Settled() && connection.io.history == old(connection.io.history)
      ensures connection.io.wire == old(connection.io.wire) + ReplyTo(a.src, header)
      ensures flow.Ends? ==> Pulled(a, State(), flow.result) && (flow.result.Eof? ==> Reading()) && !flow.result.Byte?
      ensures flow.Ends? && Lost(a, HeaderOf(header), k) ==> flow.result.Spins?
      ensures flow == Ends(Spins) ==> Stuck(header)
      ensures !flow.Ends? ==> flow.Again? && Looping(a, header, k) && AtHead(header) && get.cur == old(get.cur)
      ensures !flow.Ends? ==> unreadContent + unreadPadding == Extent(header)
    {
      get := Span(get.cur, get.cur, get.cur);
      var phr := ProcessHeader(HeaderOf(header));
      flow := Follow(a, header, k, phr);
    }

    /** That part, with what has been written on `wire` since the call began. */
    method DispatchOn(ghost a: InputState, header: seq<byte>, ghost k: nat, ghost again: bool, ghost wire: seq<byte>)
      returns (flow: Flow)
      requires Midway() && unreadContent == unreadPadding == 0 && a.src == TheSource() && a.role == connection.role
      requires Due(a, header, k, again) && Pending() == a.pending[k..]
      requires if again then Answered(a, header, k, wire, connection.io.wire) else connection.io.wire == wire
      requires mustDiscard ==> Classify(a.src, HeaderOf(header)).Foreign?
      requires again && Extent(header) == 0 ==> get.cur < bufferEnd
      modifies this`get, this`kind, this`unreadContent, this`unreadPadding, this`endOfStream, this`mustDiscard
      modifies connection.io
      ensures kind == old(kind) || kind.Data?
      ensures Settled() && connection.io.history == old(connection.io.history)
      ensures flow.Ends? ==> Pulled(a, State(), flow.result) && Replied(a, wire, connection.io.wire)
      ensures flow.Ends? ==> (flow.result.Eof? ==> Reading()) && !flow.result.Byte?
      ensures flow == Ends(Spins) ==> Stuck(header)
      ensures !flow.Ends? ==> flow.Again? && Looping(a, header, k) && AtHead(header) && get.cur == old(get.cur)
      ensures !flow.Ends? ==> Answered(a, header, k + unreadContent + unreadPadding, wire, connection.io.wire)
    {
      ghost var before := connection.io.wire;
      flow := Dispatch(a, header, k);
      if flow.Ends? {
        RepliedEnd(a, header, k, again, wire, before, connection.io.wire, State(), flow.result);
      } else {
        RepliedStep(a, header, k, again, wire, before, connection.io.wire);
      }
    }

    /** What underflow does on each result of process_header. */
    method Follow(ghost a: InputState, header: seq<byte>, ghost k: nat, phr: Processed) returns (flow: Flow)
      requires Settled() && Complete(a, header, k) && Pending() == a.pending[k..]
      requires a.src == TheSource() && a.role == connection.role && phr == ProcessedAs(a.src, HeaderOf(header))
      requires (unreadContent, unreadPadding) == Announces(HeaderOf(header))
      requires !phr.Cut? ==> Midway() && InvariantOk() && get.base == get.cur == get.end && HeaderOf(header).IsValid()
      requires mustDiscard ==> Classify(a.src, HeaderOf(header)).Foreign?
      modifies this`kind, this`unreadContent, this`unreadPadding, this`endOfStream, this`mustDiscard
      ensures kind == old(kind) || kind.Data?
      ensures Settled()
      ensures flow.Ends? ==> Pulled(a, State(), flow.result) && (flow.result.Eof? ==> Reading()) && !flow.result.Byte?
      ensures flow == Ends(Spins) ==> Stuck(header)
      ensures flow.Ends? && Lost(a, HeaderOf(header), k) ==> flow.result.Spins?
      ensures !flow.Ends? ==> flow.Again? && Looping(a, header, k) && AtHead(header)
      ensures !flow.Ends? ==> unreadContent + unreadPadding == Extent(header)
    {
      match phr {
        case Cut(result) =>
          flow := Ends(result);
          ProcessedDone(a, header, k, State(), result);
        case ContentMustBeConsumed =>
          flow := Consume(a, header, k);
        case ContentMustBeDiscarded =>
          flow := Discard(a, header, k);
      }
    }

    /** A foreign record: its bytes are due for discarding. */
    method Discard(ghost a: InputState, header: seq<byte>, ghost k: nat) returns (flow: Flow)
      requires Midway() && get.base == get.cur == get.end
      requires a.src == TheSource() && a.role == connection.role && Complete(a, header, k)
                && Pending() == a.pending[k..]
      requires unreadContent == HeaderOf(header).ContentLength() && unreadPadding == HeaderOf(header).paddingLength
      requires Classify(a.src, HeaderOf(header)).Foreign?
      modifies this`mustDiscard
      ensures if flow.Ends? then flow.result.Spins? && Pulled(a, State(), Spins) && Stuck(header)
              else flow.Again? && Looping(a, header, k) && AtHead(header)
    {
      mustDiscard := true;
      // With nothing to discard or skip and bytes at hand the loop never moves again.
      if unreadContent == 0 && unreadPadding == 0 && get.cur < bufferEnd {
        flow := Ends(Spins);
        ProcessedDone(a, header, k, State(), Spins);
      } else {
        flow := Again;
        Announced(a, header, k, mustDiscard);
      }
    }

    /** Where `Spins` is reported: a foreign header with nothing behind it, and bytes at hand. */
    ghost predicate Stuck(header: seq<byte>)
      reads this
    {
      && Midway() && get.base == get.cur == get.end < bufferEnd && unreadContent == unreadPadding == 0 && mustDiscard
      && |header| == HEADER_SIZE && Extent(header) == 0 && Classify(TheSource(), HeaderOf(header)).Foreign?
    }

    /**
      * The turn of the loop that follows: with no byte to discard, skip or copy it processes the
      * same header again and arrives where it started.
      */
    method OneMoreTurn(header: seq<byte>)
      requires Stuck(header)
      modifies this`unreadContent, this`unreadPadding, this`mustDiscard, this`get, connection.io
      ensures Stuck(header) && get == old(get)
      ensures connection.io.incoming == old(connection.io.incoming)
                && connection.io.history == old(connection.io.history)
      ensures connection.io.wire == old(connection.io.wire) + Encode(SentFor(TheSource(), HeaderOf(header)))
    {
      var count := Min(HEADER_SIZE - |header|, bufferEnd - get.cur);
      get := get.(cur := get.cur + count);
      get := Span(get.cur, get.cur, get.cur);
      var phr := ProcessHeader(HeaderOf(header));
      assert phr.ContentMustBeDiscarded?;
      mustDiscard := true;
    }

    /** However many turns follow, the loop stays there, reads nothing and repeats its reply. */
    method MoreTurns(header: seq<byte>, n: nat)
      requires Stuck(header)
      modifies this`unreadContent, this`unreadPadding, this`mustDiscard, this`get, connection.io
      ensures Stuck(header) && get == old(get)
      ensures connection.io.incoming == old(connection.io.incoming)
                && connection.io.history == old(connection.io.history)
      ensures connection.io.wire
                == old(connection.io.wire) + Repeated(Encode(SentFor(TheSource(), HeaderOf(header))), n)
    {
      ghost var reply := Encode(SentFor(TheSource(), HeaderOf(header)));
      assert connection.io.wire + Repeated(reply, 0) == connection.io.wire;
      for i := 0 to n
        invariant Stuck(header) && get == old(get)
        invariant connection.io.incoming == old(connection.io.incoming)
                  && connection.io.history == old(connection.io.history)
        invariant connection.io.wire == old(connection.io.wire) + Repeated(reply, i)
      {
        OneMoreTurn(header);
        Records.Associate(old(connection.io.wire), Repeated(reply, i), reply);
      }
    }

    /** An own record: its content is due, or the stream has ended. */
    method Consume(ghost a: InputState, header: seq<byte>, ghost k: nat) returns (flow: Flow)
      requires Midway() && InvariantOk() && get.base == get.cur == get.end && !mustDiscard
      requires a.src == TheSource() && a.role == connection.role && Complete(a, header, k)
                && Pending() == a.pending[k..]
      requires unreadContent == HeaderOf(header).ContentLength() && unreadPadding == HeaderOf(header).paddingLength
      requires var v := Classify(a.src, HeaderOf(header)); v.Own? || v.EndOfStream?
      modifies this`kind, this`unreadContent, this`unreadPadding, this`endOfStream, this`mustDiscard
      ensures kind == old(kind) || kind.Data?
      ensures Settled()
      ensures if flow.Ends? then flow.result.Eof? && Pulled(a, State(), Eof) && Reading()
              else flow.Again? && Looping(a, header, k) && AtHead(header)
    {
      if unreadContent == 0 {
        SetEndOfStream();
        flow := Ends(Eof);
        ProcessedDone(a, header, k, State(), Eof);
      } else {
        flow := Again;
        Announced(a, header, k, mustDiscard);
      }
    }

    /** Ends the stream; a Filter that has come to the end of `in` goes on with `data`. */
    method SetEndOfStream()
      requires Midway() && InvariantOk() && get.base == get.cur == get.end && unreadContent == 0 && !mustDiscard
      modifies this`kind, this`unreadContent, this`unreadPadding, this`endOfStream, this`mustDiscard
      ensures kind == old(kind) || kind.Data?
      ensures Reading() && State() == Ended(old(State()), old(unreadPadding), old(Pending()))
    {
      endOfStream := true;
      assert InvariantOk();
      if IsReadyToFilterData() {
        ResetReader(Data);
      }
    }

    /** Content that is due, as far as the bytes at hand go. */
    method TakeContent(ghost a: InputState, ghost header: seq<byte>, ghost k: nat, ghost wire: seq<byte>)
      returns (flow: Flow, ghost k': nat)
      requires Looping(a, header, k) && get.cur < bufferEnd && 0 < unreadContent
      requires Answered(a, header, k + unreadContent + unreadPadding, wire, connection.io.wire)
      modifies this`get, this`unreadContent, this`mustDiscard
      ensures flow.Ends? ==> flow.result.Byte? && Finished(a, flow.result, wire) && get.base == old(get.cur)
      ensures !flow.Ends? ==> Looping(a, header, k') && k < k' && (flow.Again? <==> 0 < unreadContent)
      ensures !flow.Ends? ==> k' + unreadContent == k + old(unreadContent)
    {
      var count := Min(unreadContent, bufferEnd - get.cur);
      if !mustDiscard {
        QuietSoFar(a, header, k, unreadContent, unreadPadding, wire, connection.io.wire);
        var r := ExposeContent(a, header, k, count);
        return Ends(r), k;
      }
      flow := DiscardContent(a, header, k, count);
      k' := k + count;
    }

    /** Content and padding that are due, as far as the bytes at hand go. */
    method TakeDue(ghost a: InputState, ghost header: seq<byte>, ghost k: nat, ghost reach: nat, ghost wire: seq<byte>)
      returns (flow: Flow, ghost k': nat)
      requires Looping(a, header, k) && get.cur < bufferEnd && reach == k + unreadContent + unreadPadding
      requires unreadContent + unreadPadding == 0 ==> Extent(header) == 0
      requires Answered(a, header, reach, wire, connection.io.wire)
      modifies this`get, this`unreadContent, this`unreadPadding, this`mustDiscard
      ensures flow.Ends? ==> flow.result.Byte? && Finished(a, flow.result, wire) && get.base == old(get.cur)
      ensures !flow.Ends? ==> Looping(a, header, k') && reach == k' + unreadContent + unreadPadding
      ensures flow.Again? ==> k < k' && AtHead(header)
      ensures flow.Below? ==>
                && unreadContent == unreadPadding == 0
                && (k < k' || (k == k' && get.cur < bufferEnd && Extent(header) == 0))
      ensures flow.Below? && |header| == HEADER_SIZE && Extent(header) == 0 ==> get.cur < bufferEnd
    {
      flow, k' := Below, k;
      // Setting up the get area for the content.
      if unreadContent > 0 {
        flow, k' := TakeContent(a, header, k, wire);
      }

      // Skipping the padding.
      if flow.Below? && unreadPadding > 0 {
        flow, k' := SkipPadding(a, header, k');
      }
    }

    /** Sees to it that bytes are at hand; false for the exception at the transport's end. */
    method HaveBytes(ghost a: InputState, ghost header: seq<byte>, ghost k: nat, ghost reach: nat,
        ghost wire: seq<byte>)
      returns (more: bool)
      requires Looping(a, header, k) && AtHead(header)
      requires reach == k + unreadContent + unreadPadding && Answered(a, header, reach, wire, connection.io.wire)
      modifies this`get, this`bufferEnd, buffer, connection.io
      ensures connection.io.wire == old(connection.io.wire)
      ensures Asked(old(connection.io.history), connection.io.history, bufferSize, 1)
      ensures Settled() && (!more ==> Pulled(a, State(), Threw))
      ensures !more ==> Replied(a, wire, connection.io.wire)
      ensures more ==> get.cur < bufferEnd && Looping(a, header, k)
      ensures unreadContent + unreadPadding == 0 ==> Extent(header) == 0
      ensures more ==> get.cur == if old(get.cur) == old(bufferEnd) then 0 else old(get.cur)
    {
      more := true;
      if get.cur == bufferEnd {
        more := Refill(a, header, k, wire);
      }
    }

    /** Underflow has ended with `r`. */
    ghost predicate Finished(a: InputState, r: Pull, wire: seq<byte>)
      reads this, buffer, connection.io
    {
      && Settled() && Pulled(a, State(), r) && Replied(a, wire, connection.io.wire)
      && (r.Byte? || r.Eof? ==> Reading()) && (r.Byte? ==> AllExposed()) && (r.Spins? ==> Stuck(NextBytes(a)))
    }

    /** The head of underflow's loop, with what has been written on `wire`. */
    ghost predicate Heading(a: InputState, header: seq<byte>, k: nat, reach: nat, wire: seq<byte>)
      reads this, buffer, connection.io
    {
      && Looping(a, header, k) && AtHead(header)
      && reach == k + unreadContent + unreadPadding && Answered(a, header, reach, wire, connection.io.wire)
    }

    /** The first half of underflow's loop: reading, then what is due of content and padding. */
    method UseDue(ghost a: InputState, ghost header: seq<byte>, ghost k: nat, ghost reach: nat, ghost wire: seq<byte>)
      returns (flow: Flow, ghost k': nat)
      requires Heading(a, header, k, reach, wire)
      modifies this`get, this`bufferEnd, this`unreadContent, this`unreadPadding, this`mustDiscard, buffer, connection.io
      ensures Asked(old(connection.io.history), connection.io.history, bufferSize, 1)
      ensures flow.Ends? ==> Finished(a, flow.result, wire)
      ensures flow.Ends? && flow.result.Byte? ==> get.base == if old(get.cur) == old(bufferEnd) then 0 else old(get.cur)
      ensures flow.Again? ==> Heading(a, header, k', reach, wire) && k < k'
      ensures flow.Below? ==>
                && Looping(a, header, k') && unreadContent == unreadPadding == 0
                && k' == reach && Answered(a, header, reach, wire, connection.io.wire)
                && (k < k' || (k == k' && get.cur < bufferEnd && Extent(header) == 0))
      ensures flow.Below? && |header| == HEADER_SIZE && Extent(header) == 0 ==> get.cur < bufferEnd
    {
      var more := HaveBytes(a, header, k, reach, wire);
      if !more {
        return Ends(Threw), k;
      }
      assert bufferEnd - get.cur > 0;
      flow, k' := TakeDue(a, header, k, reach, wire);
    }

    /** The second half: the header, piece by piece, and its processing. */
    method UseHeader(ghost a: InputState, header: seq<byte>, ghost k: nat, ghost wire: seq<byte>)
      returns (flow: Flow, longer: seq<byte>, ghost k': nat, ghost reach: nat)
      requires Looping(a, header, k) && unreadContent == unreadPadding == 0
                && Answered(a, header, k, wire, connection.io.wire)
      requires |header| == HEADER_SIZE && Extent(header) == 0 ==> get.cur < bufferEnd
      modifies this`get, this`kind, this`unreadContent, this`unreadPadding, this`endOfStream, this`mustDiscard
      modifies connection.io
      ensures kind == old(kind) || kind.Data?
      ensures connection.io.history == old(connection.io.history) && !flow.Below?
      ensures flow.Ends? ==> Finished(a, flow.result, wire) && !flow.result.Byte?
      ensures !flow.Ends? ==>
                && Heading(a, longer, k', reach, wire)
                && (k < k' || (k == k' && (old(get.cur) == bufferEnd || Extent(header) > 0)))
    {
      // Accumulating the header.
      longer, k' := Accumulate(a, header, k);
      if |longer| < HEADER_SIZE {
        return Again, longer, k', k';
      }

      // Processing the header.
      flow := DispatchOn(a, longer, k', |header| == HEADER_SIZE, wire);
      reach := k' + unreadContent + unreadPadding;
    }

    /** One turn of underflow's loop. */
    method Turn(ghost a: InputState, header: seq<byte>, ghost k: nat, ghost reach: nat, ghost wire: seq<byte>)
      returns (flow: Flow, longer: seq<byte>, ghost k': nat, ghost reach': nat)
      requires Heading(a, header, k, reach, wire)
      modifies this`get, this`bufferEnd, this`kind, this`unreadContent, this`unreadPadding, this`endOfStream
      modifies this`mustDiscard
      modifies buffer, connection.io
      ensures kind == old(kind) || kind.Data?
      ensures Asked(old(connection.io.history), connection.io.history, bufferSize, 1)
      ensures if flow.Ends? then Finished(a, flow.result, wire) else Heading(a, longer, k', reach', wire) && k < k'
      ensures flow.Ends? && flow.result.Byte? ==> get.base == if old(get.cur) == old(bufferEnd) then 0 else old(get.cur)
    {
      longer, reach' := header, reach;
      flow, k' := UseDue(a, header, k, reach, wire);
      if flow.Below? {
        flow, longer, k', reach' := UseHeader(a, header, k', wire);
      }
    }

    method Underflow() returns (r: Pull)
      requires Reading() && get.cur == get.end
      modifies this`get, this`bufferEnd, this`kind, this`unreadContent, this`unreadPadding, this`endOfStream
      modifies this`mustDiscard
      modifies buffer, connection.io
      ensures kind == old(kind) || kind.Data?
      ensures Settled() && Pulled(old(State()), State(), r)
      ensures (r.Byte? || r.Eof? ==> Reading()) && (r.Byte? ==> AllExposed())
      ensures Replied(old(State()), old(connection.io.wire), connection.io.wire)
      ensures !MeetsForeign(old(State())) ==>
                Asked(old(connection.io.history), connection.io.history, bufferSize, old(unreadPadding) + 9)
      ensures Asked(old(connection.io.history), connection.io.history, bufferSize, |old(Pending())| + 1)
      ensures old(endOfStream) ==> connection.io.history == old(connection.io.history)
      ensures r.Spins? ==> Stuck(NextBytes(old(State())))
      ensures r.Byte? && old(unreadContent) > 0 ==>
                get.base == if old(get.cur) == old(bufferEnd) then 0 else old(get.cur)
    {
      if endOfStream {
        return Eof;
      }
      ghost var a, wire, history := State(), connection.io.wire, connection.io.history;
      ghost var k: nat, reach: nat := 0, unreadContent + unreadPadding;
      var header: seq<byte> := [];
      while true
        invariant Heading(a, header, k, reach, wire)
        invariant a.unread > 0 ==> header == [] && k == 0 && get == old(get) && bufferEnd == old(bufferEnd)
        invariant Asked(history, connection.io.history, bufferSize, k)
        decreases |a.pending| - k
      {
        UsedAtMost(a, header, k, unreadContent, unreadPadding, mustDiscard);
        var flow;
        ghost var before, used := connection.io.history, k;
        flow, header, k, reach := Turn(a, header, k, reach, wire);
        AskedTwice(history, before, connection.io.history, bufferSize, used, 1);
        if flow.Ends? {
          return flow.result;
        }
      }
    }

    method ResetReader(newKind: StreamType)
      requires Placed() && InvariantOk() && IsReader() && get.Span?
      requires newKind.Params? || (connection.role.Responder? && newKind.In?)
               || (connection.role.Filter? && (newKind.In? || newKind.Data?))
      modifies this`kind, this`endOfStream, this`mustDiscard, this`unreadContent, this`unreadPadding
      ensures kind == newKind && !endOfStream && !mustDiscard && unreadContent == 0 && unreadPadding == 0
      ensures InvariantOk()
    {
      kind := newKind;
      endOfStream := false;
      mustDiscard := false;
      unreadContent := 0;
      unreadPadding := 0;
    }

    // -------------------------------------------------------------------------
    // The reader as std::streambuf drives it
    // -------------------------------------------------------------------------

    /** The bytes and the ending that are still to come. */
    ghost function TheView(): View
      requires Bounded()
      reads this, buffer, connection.io
    {
      ViewOf(State())
    }

    /** Copies `count` bytes out of the get area. */
    method TakeExposed(count: nat) returns (data: seq<byte>)
      requires Reading() && get.cur + count <= get.end
      modifies this`get
      ensures Reading() && get == Span(old(get.base), old(get.cur) + count, old(get.end))
      ensures count <= |old(TheView()).tail.content| && data == old(TheView()).tail.content[..count]
      ensures TheView() == Skip(old(TheView()), count)
    {
      data := buffer[get.cur..get.cur + count];
      ghost var a := State();
      Gbump(count);
      if count > 0 {
        TakeRefinesView(a, State(), count);
      } else {
        assert State() == a;
      }
    }

    /** An underflow, as the user of the buffer sees it. */
    method Pulling() returns (r: Pull)
      requires Reading() && get.cur == get.end
      modifies this`get, this`bufferEnd, this`kind, this`unreadContent, this`unreadPadding, this`endOfStream
      modifies this`mustDiscard
      modifies buffer, connection.io
      ensures old(connection.io.history) <= connection.io.history
      ensures (kind == old(kind) || kind.Data?) && (r.Byte? || r.Threw? ==> kind == old(kind))
      ensures Settled() && r == Draw(old(TheView())).0 && (r.Byte? || r.Eof? ==> Reading())
      ensures r.Byte? ==>
                get.cur < get.end && TheView() == old(TheView()) && connection.io.wire == old(connection.io.wire)
      ensures r.Eof? ==> TheView() == Draw(old(TheView())).1 && connection.io.wire == old(connection.io.wire)
      ensures !r.Byte? ==> Answers(old(TheView()), old(connection.io.wire), connection.io.wire)
      ensures r.Threw? ==> (unreadContent > bufferSize <==> Overlong(old(TheView())))
    {
      ghost var a, wire := State(), connection.io.wire;
      r := Underflow();
      PulledRefinesDraw(a, State(), r);
      if r.Byte? || r.Eof? {
        RepliedQuietly(a, State(), r, wire, connection.io.wire);
      }
      if !r.Byte? {
        DrawNothing(ViewOf(a));
        RepliedAnswers(a, wire, connection.io.wire);
      }
      if r.Threw? {
        LeftOverlong(a, State());
      }
    }

    /** sbumpc: takes one character, from the get area or by an underflow. */
    method Sbumpc() returns (r: Pull)
      requires Reading()
      modifies this`get, this`bufferEnd, this`kind, this`unreadContent, this`unreadPadding, this`endOfStream
      modifies this`mustDiscard
      modifies buffer, connection.io
      ensures old(connection.io.history) <= connection.io.history
      ensures (kind == old(kind) || kind.Data?) && (r.Byte? || r.Threw? ==> kind == old(kind))
      ensures Settled() && r == Draw(old(TheView())).0
      ensures r.Byte? || r.Eof? ==>
                Reading() && TheView() == Draw(old(TheView())).1 && connection.io.wire == old(connection.io.wire)
      ensures !r.Byte? ==> Answers(old(TheView()), old(connection.io.wire), connection.io.wire)
      ensures r.Threw? ==> (unreadContent > bufferSize <==> Overlong(old(TheView())))
    {
      if get.cur == get.end {
        r := Pulling();
        if !r.Byte? {
          return;
        }
      }
      var data := TakeExposed(1);
      r := Byte(data[0]);
    }

    /** One round of xsgetn: what is exposed, or one byte by an underflow. */
    method TakeSome(limit: nat) returns (data: seq<byte>, last: Pull)
      requires Reading() && 0 < limit
      modifies this`get, this`bufferEnd, this`kind, this`unreadContent, this`unreadPadding, this`endOfStream
      modifies this`mustDiscard
      modifies buffer, connection.io
      ensures old(connection.io.history) <= connection.io.history
      ensures Settled() && |data| <= limit
      ensures if data == [] then !last.Byte? && last == Draw(old(TheView())).0 && old(TheView()).tail.content == []
              else Reading() && Took(old(TheView()), data, TheView()) && connection.io.wire == old(connection.io.wire)
      ensures data == [] ==> Answers(old(TheView()), old(connection.io.wire), connection.io.wire)
      ensures data == [] && last.Threw? ==> (unreadContent > bufferSize <==> Overlong(old(TheView())))
    {
      if get.cur < get.end {
        data := TakeExposed(Min(get.end - get.cur, limit));
        last := Eof;
      } else {
        ghost var v := TheView();
        last := Sbumpc();
        if last.Byte? {
          DrawIsSkip(v);
          data := [last.b];
        } else {
          DrawNothing(v);
          data := [];
        }
      }
    }

    /**
      * xsgetn: takes `n` bytes, or those that come before the content ends; then `last` tells
      * how it ended.
      */
    method Xsgetn(n: nat) returns (data: seq<byte>, last: Pull)
      requires Reading()
      modifies this`get, this`bufferEnd, this`kind, this`unreadContent, this`unreadPadding, this`endOfStream
      modifies this`mustDiscard
      modifies buffer, connection.io
      ensures old(connection.io.history) <= connection.io.history
      ensures Settled() && |data| == Min(n, |old(TheView()).tail.content|)
      ensures data == old(TheView()).tail.content[..|data|]
      ensures |data| == n ==>
                Reading() && TheView() == Skip(old(TheView()), n) && connection.io.wire == old(connection.io.wire)
      ensures |data| < n ==> !last.Byte? && last == Draw(Skip(old(TheView()), |data|)).0
      ensures |data| < n ==> Answers(old(TheView()), old(connection.io.wire), connection.io.wire)
      ensures |data| < n && last.Threw? ==> (unreadContent > bufferSize <==> Overlong(Skip(old(TheView()), |data|)))
    {
      data, last := [], Eof;
      ghost var v, w := TheView(), TheView();
      while |data| < n
        invariant Reading() && |data| <= n && w == TheView() && Took(v, data, w)
        invariant old(connection.io.history) <= connection.io.history
        invariant connection.io.wire == old(connection.io.wire)
        decreases n - |data|
      {
        var piece;
        piece, last := TakeSome(n - |data|);
        if piece == [] {
          return;
        }
        TookTwice(v, data, w, piece, TheView());
        data, w := data + piece, TheView();
      }
    }
  }
}
