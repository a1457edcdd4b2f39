/**
  * What a reading stream buffer must deliver, as a function of the bytes still to come. The
  * buffer of src/fcgi/streambuf.cpp works through them in whatever pieces the transport hands
  * over; `Pulled` is one call of its `underflow`, `Draw` one character taken by its user.
  */
module Input {
  import opened Arithmetic
  import opened Basics
  import opened Records

  /** The stream being read: its type, the request it belongs to and the buffer's size. */
  datatype Source = Source(kind: StreamType, id: nat, cap: nat)

  // ---------------------------------------------------------------------------
  // Reading records one after the other
  // ---------------------------------------------------------------------------

  /** What process_header makes of a header, in the order of its tests. */
  datatype Verdict = Own | EndOfStream | Oversized | BadVersion | WrongType | Foreign | Management

  function Classify(src: Source, h: Header): Verdict {
    if !h.IsValid() then BadVersion
    else if h.recordType == BEGIN_REQUEST then Foreign
    else if h.IsManagement() then Management
    else if h.RequestId() != src.id then Foreign
    else if h.recordType != src.kind.Code() then WrongType
    else if h.ContentLength() > src.cap then Oversized
    else if h.ContentLength() > 0 then Own
    else EndOfStream
  }

  datatype Ending = Truncated | At(verdict: Verdict, header: Header)

  /** Content up to the first header that is not of an own non-empty record, and what follows it. */
  datatype Tail = Tail(content: seq<byte>, ending: Ending, rest: seq<byte>)

  /** `s` starts with `u` bytes of content and `p` of padding, then come whole records. */
  function Demux(src: Source, u: nat, p: nat, s: seq<byte>): (t: Tail)
    decreases |s|, 0
  {
    var c := s[..Min(u, |s|)];
    if |s| < u + p + HEADER_SIZE then Tail(c, Truncated, [])
    else
      var t := Behind(src, HeaderOf(s[u + p..u + p + HEADER_SIZE]), s[u + p + HEADER_SIZE..]);
      Tail(c + t.content, t.ending, t.rest)
  }

  /** What a header makes of the bytes behind it. */
  function Behind(src: Source, h: Header, after: seq<byte>): Tail
    decreases |after|, 1
  {
    if Classify(src, h).Own? then Demux(src, h.ContentLength(), h.paddingLength, after)
    else Tail([], At(Classify(src, h), h), after)
  }

  // ---------------------------------------------------------------------------
  // One call of underflow
  // ---------------------------------------------------------------------------

  /**
    * Outcomes of a read: a byte, end of file, an exception, a failed assertion that ends the
    * process, a loop that never ends, or a management record, where this model stops.
    */
  datatype Pull = Byte(b: byte) | Eof | Threw | Aborted | Spins | Stopped

  /** How a call ends when the next header is not of an own non-empty record. */
  function Fate(src: Source, ending: Ending, rest: seq<byte>): Pull {
    match ending
    case Truncated => Threw
    case At(v, h) =>
      match v
      case EndOfStream => Eof
      case Oversized => Aborted
      case Management => Stopped
      case Foreign =>
        if h.ContentLength() > src.cap then Aborted
        else if h.ContentLength() + h.paddingLength > 0 || rest == [] then Threw
        else Spins
      case _ => Threw
  }

  /**
    * An open reading buffer: `ready` bytes are exposed in the get area; they lead `pending`,
    * the buffered bytes followed by those still in the transport. Then `unread` bytes of the
    * current record's content and `padding` bytes of its padding are due.
    */
  datatype InputState = InputState(
    src: Source, role: Role, ended: bool, unread: nat, padding: nat, ready: nat, pending: seq<byte>)

  /** The state after a terminating record: only a Filter's `in` moves on, to `data`. */
  function Ended(a: InputState, padding: nat, after: seq<byte>): InputState {
    if a.role.Filter? && a.src.kind.In? then
      a.(src := a.src.(kind := Data), ended := false, unread := 0, padding := 0, ready := 0, pending := after)
    else
      a.(ended := true, unread := 0, padding := padding, ready := 0, pending := after)
  }

  /** `u` bytes of content lead `s`: a non-empty part of them is exposed, the rest stays due. */
  predicate Exposes(a: InputState, b: InputState, r: Pull, u: nat, p: nat, s: seq<byte>) {
    if s == [] then r == Threw
    else
      && r == Byte(s[0])
      && 0 < b.ready <= |s| && b.ready + b.unread == u
      && b == a.(unread := b.unread, padding := p, ready := b.ready, pending := s)
  }

  /** An input state whose buffer is replaced by an empty one of size `cap`. */
  function Rebuffered(a: InputState, cap: nat, incoming: seq<byte>): InputState {
    a.(src := a.src.(cap := cap), ready := 0, pending := incoming)
  }

  /** The header an underflow comes to, unless content is due first or the bytes run out. */
  function NextHeader(a: InputState): Option<Header> {
    if a.ended || a.unread > 0 || |a.pending| < a.padding + HEADER_SIZE then None
    else Some(HeaderOf(a.pending[a.padding..a.padding + HEADER_SIZE]))
  }

  predicate MeetsForeign(a: InputState) {
    NextHeader(a).Some? && Classify(a.src, NextHeader(a).value).Foreign?
  }

  /**
    * What an exception leaves: the lengths due and the bytes behind them. A record of the wrong
    * type leaves its lengths, whatever they are; a foreign one some part of its content.
    */
  predicate Left(a: InputState, b: InputState) {
    && b.src == a.src
    && match NextHeader(a)
       case None => b.unread == a.unread && b.pending == []
       case Some(h) =>
         var after := a.pending[a.padding + HEADER_SIZE..];
         match Classify(a.src, h)
         case WrongType => b.unread == h.ContentLength() && b.padding == h.paddingLength && b.pending == after
         case BadVersion => b.unread == 0 && b.padding == 0 && b.pending == after
         case Own => b.unread == h.ContentLength() && b.padding == h.paddingLength && b.pending == []
         case _ => b.unread <= h.ContentLength() && b.padding <= h.paddingLength && b.pending == []
  }

  /** From `a`, an underflow may return `r` and leave `b`. */
  predicate Pulled(a: InputState, b: InputState, r: Pull) {
    if a.ended then r == Eof && b == a
    else
      && (r.Threw? ==> Left(a, b))
      && if a.unread > 0 then Exposes(a, b, r, a.unread, a.padding, a.pending)
         else
           match NextHeader(a)
           case None => r == Threw
           case Some(h) =>
             var after := a.pending[a.padding + HEADER_SIZE..];
             var v := Classify(a.src, h);
             if v.Own? then Exposes(a, b, r, h.ContentLength(), h.paddingLength, after)
             else r == Fate(a.src, At(v, h), after) && (v.EndOfStream? ==> b == Ended(a, h.paddingLength, after))
  }

  /** Rejection of a further request, or of a record of the wrong type. */
  function Rejection(h: Header): (r: Record)
    ensures r.Valid()
  {
    EndRequest(h.RequestId(), 0, CantMpxConn)
  }

  function Copies(r: Record, n: nat): (rs: seq<Record>)
    ensures |rs| == n && forall i :: 0 <= i < n ==> rs[i] == r
  {
    seq(n, _ => r)
  }

  /**
    * How often the header of a foreign record is processed: once more each time that as many of
    * the `n` bytes behind it as it announces have been used up.
    */
  function Rounds(src: Source, h: Header, n: nat): nat {
    var extent := h.ContentLength() + h.paddingLength;
    if h.ContentLength() > src.cap || extent == 0 then 1 else 1 + Times(n, extent)
  }

  /** The records that the header in front of `rest` makes its reader write. */
  function Replies(src: Source, ending: Ending, rest: seq<byte>): seq<Record> {
    match ending
    case At(WrongType, h) => [Rejection(h)]
    case At(Foreign, h) => if h.recordType == BEGIN_REQUEST then Copies(Rejection(h), Rounds(src, h, |rest|)) else []
    case _ => []
  }

  /** Those records were written; where the call never ends they are only the first. */
  predicate RepliedWith(src: Source, ending: Ending, rest: seq<byte>, before: seq<byte>, after: seq<byte>) {
    var replies := Encode(Replies(src, ending, rest));
    if Fate(src, ending, rest).Spins? then before + replies <= after else after == before + replies
  }

  /** What an underflow writes: the replies to the header it comes to. */
  predicate Replied(a: InputState, before: seq<byte>, after: seq<byte>) {
    match NextHeader(a)
    case None => after == before
    case Some(h) => RepliedWith(a.src, At(Classify(a.src, h), h), a.pending[a.padding + HEADER_SIZE..], before, after)
  }

  // ---------------------------------------------------------------------------
  // What the user of the buffer sees
  // ---------------------------------------------------------------------------

  /** The buffer as its user sees it: how the bytes are split plays no part in it. */
  datatype View = View(src: Source, role: Role, ended: bool, tail: Tail)

  function Finished(rest: seq<byte>): Tail {
    Tail([], Truncated, rest)
  }

  function ViewOf(a: InputState): View {
    View(a.src, a.role, a.ended,
         if a.ended then Finished(a.pending) else Demux(a.src, a.ready + a.unread, a.padding, a.pending))
  }

  function Open(src: Source, role: Role, s: seq<byte>): View {
    View(src, role, false, Demux(src, 0, 0, s))
  }

  function AfterEnd(v: View): View {
    if v.role.Filter? && v.src.kind.In? then Open(v.src.(kind := Data), v.role, v.tail.rest)
    else v.(ended := true, tail := Finished(v.tail.rest))
  }

  /** Taking one character. */
  function Draw(v: View): (Pull, View) {
    if v.ended then (Eof, v)
    else if v.tail.content != [] then
      (Byte(v.tail.content[0]), v.(tail := v.tail.(content := v.tail.content[1..])))
    else
      var r := Fate(v.src, v.tail.ending, v.tail.rest);
      (r, if r.Eof? then AfterEnd(v) else v)
  }

  lemma DemuxStep(src: Source, u: nat, p: nat, s: seq<byte>)
    requires |s| >= u + p + HEADER_SIZE
    ensures var t := Behind(src, HeaderOf(s[u + p..u + p + HEADER_SIZE]), s[u + p + HEADER_SIZE..]);
            Demux(src, u, p, s) == Tail(s[..u] + t.content, t.ending, t.rest)
  {
  }

  /** With no content due, an own record's header moves on to its content. */
  lemma OwnStep(src: Source, p: nat, s: seq<byte>)
    requires |s| >= p + HEADER_SIZE
    ensures Demux(src, 0, p, s) == Behind(src, HeaderOf(s[p..p + HEADER_SIZE]), s[p + HEADER_SIZE..])
  {
    DemuxStep(src, 0, p, s);
    var t := Behind(src, HeaderOf(s[p..p + HEADER_SIZE]), s[p + HEADER_SIZE..]);
    assert s[..0] + t.content == t.content;
  }

  /** Bytes due and at hand come first. */
  lemma DueFirst(src: Source, u: nat, p: nat, s: seq<byte>)
    requires 0 < u && s != []
    ensures Demux(src, u, p, s).content != [] && Demux(src, u, p, s).content[0] == s[0]
  {
  }

  lemma DrawStuck(v: View)
    requires !v.ended && v.tail.content == []
    ensures var r := Fate(v.src, v.tail.ending, v.tail.rest);
            Draw(v) == (r, if r.Eof? then AfterEnd(v) else v)
  {
  }

  /** Exposing content due in front of `s` shows the same view as `s` with nothing exposed. */
  lemma ExposedView(a: InputState, b: InputState, r: Pull, u: nat, p: nat, s: seq<byte>)
    requires !a.ended && 0 < u && Exposes(a, b, r, u, p, s)
    ensures var v := View(a.src, a.role, false, Demux(a.src, u, p, s));
            Draw(v).0 == r && (r.Byte? ==> ViewOf(b) == v && b.ready > 0)
  {
    var v := View(a.src, a.role, false, Demux(a.src, u, p, s));
    if s == [] {
      DrawStuck(v);
    } else {
      DueFirst(a.src, u, p, s);
    }
  }

  /** Exposing more content leaves the view as it was; anything else is what `Draw` says. */
  lemma PulledRefinesDraw(a: InputState, b: InputState, r: Pull)
    requires a.ready == 0 && Pulled(a, b, r)
    ensures r.Byte? ==> ViewOf(b) == ViewOf(a) && b.ready > 0
    ensures Draw(ViewOf(a)).0 == r
    ensures r.Eof? ==> ViewOf(b) == Draw(ViewOf(a)).1 && b.ready == 0
  {
    if a.ended {
    } else if a.unread > 0 {
      ExposedView(a, b, r, a.unread, a.padding, a.pending);
    } else if NextHeader(a).None? {
      DrawStuck(ViewOf(a));
    } else {
      HeaderStep(a, b, r);
    }
  }

  lemma HeaderStep(a: InputState, b: InputState, r: Pull)
    requires a.ready == 0 && Pulled(a, b, r) && NextHeader(a).Some?
    ensures r.Byte? ==> ViewOf(b) == ViewOf(a) && b.ready > 0
    ensures Draw(ViewOf(a)).0 == r
    ensures r.Eof? ==> ViewOf(b) == Draw(ViewOf(a)).1 && b.ready == 0
  {
    var h := NextHeader(a).value;
    var after := a.pending[a.padding + HEADER_SIZE..];
    OwnStep(a.src, a.padding, a.pending);
    if Classify(a.src, h).Own? {
      ExposedView(a, b, r, h.ContentLength(), h.paddingLength, after);
    } else {
      EndStep(a, b, r, h, after);
    }
  }

  lemma EndStep(a: InputState, b: InputState, r: Pull, h: Header, after: seq<byte>)
    requires !a.ended && !Classify(a.src, h).Own? && r == Fate(a.src, At(Classify(a.src, h), h), after)
    requires Classify(a.src, h).EndOfStream? ==> b == Ended(a, h.paddingLength, after)
    ensures var v := View(a.src, a.role, false, Tail([], At(Classify(a.src, h), h), after));
            Draw(v).0 == r && !r.Byte? && (r.Eof? ==> ViewOf(b) == Draw(v).1 && b.ready == 0)
  {
    DrawStuck(View(a.src, a.role, false, Tail([], At(Classify(a.src, h), h), after)));
  }

  // ---------------------------------------------------------------------------
  // What a failed call has written and left behind
  // ---------------------------------------------------------------------------

  /** What the header that ends a stream makes its reader write. */
  predicate Answers(v: View, before: seq<byte>, after: seq<byte>) {
    RepliedWith(v.src, v.tail.ending, v.tail.rest, before, after)
  }

  /** No content is left, and what comes is a record of the wrong type that is too long for the buffer. */
  predicate Overlong(v: View) {
    && !v.ended && v.tail.content == []
    && v.tail.ending.At? && v.tail.ending.verdict.WrongType? && v.tail.ending.header.ContentLength() > v.src.cap
  }

  /** A call that finds no content meets the header that ends the stream, if there is one. */
  lemma MeetsEnding(a: InputState)
    requires a.ready == 0 && ViewOf(a).tail.content == []
    ensures match NextHeader(a)
            case None => ViewOf(a).tail.ending.Truncated?
            case Some(h) =>
              if Classify(a.src, h).Own? then ViewOf(a).tail.ending.Truncated?
              else
                && ViewOf(a).tail.ending == At(Classify(a.src, h), h)
                && ViewOf(a).tail.rest == a.pending[a.padding + HEADER_SIZE..]
  {
    if NextHeader(a).Some? {
      OwnStep(a.src, a.padding, a.pending);
    }
  }

  lemma RepliedAnswers(a: InputState, before: seq<byte>, after: seq<byte>)
    requires a.ready == 0 && ViewOf(a).tail.content == [] && Replied(a, before, after)
    ensures Answers(ViewOf(a), before, after)
  {
    MeetsEnding(a);
    assert before + [] == before;
  }

  /** An exception leaves more content due than the buffer holds exactly behind an overlong record. */
  lemma LeftOverlong(a: InputState, b: InputState)
    requires a.ready == 0 && a.unread <= a.src.cap && Pulled(a, b, Threw)
    ensures b.unread > a.src.cap <==> Overlong(ViewOf(a))
  {
    PulledRefinesDraw(a, b, Threw);
    MeetsEnding(a);
  }

  /** Content and padding that are all at hand give way to the records behind them. */
  lemma DemuxDrop(src: Source, u: nat, p: nat, s: seq<byte>)
    requires |s| >= u + p
    ensures var n := Demux(src, 0, 0, s[u + p..]);
            Demux(src, u, p, s) == Tail(s[..u] + n.content, n.ending, n.rest)
  {
    if |s| < u + p + HEADER_SIZE {
      DropShort(src, u, p, s);
    } else {
      DropLong(src, u, p, s);
    }
  }

  lemma DropShort(src: Source, u: nat, p: nat, s: seq<byte>)
    requires u + p <= |s| < u + p + HEADER_SIZE
    ensures Demux(src, 0, 0, s[u + p..]) == Tail([], Truncated, [])
    ensures Demux(src, u, p, s) == Tail(s[..u] + [], Truncated, [])
  {
    assert s[..u] + [] == s[..u];
  }

  lemma DropLong(src: Source, u: nat, p: nat, s: seq<byte>)
    requires u + p + HEADER_SIZE <= |s|
    ensures var n := Demux(src, 0, 0, s[u + p..]);
            Demux(src, u, p, s) == Tail(s[..u] + n.content, n.ending, n.rest)
  {
    SliceShift(s, u + p, u + p, u + p + HEADER_SIZE);
    DemuxStep(src, u, p, s);
    OwnStep(src, 0, s[u + p..]);
  }

  /** Bytes due and at hand come first, and do not matter for what comes behind them. */
  lemma DemuxTake(src: Source, u: nat, p: nat, s: seq<byte>, n: nat)
    requires n <= u && n <= |s|
    ensures var t := Demux(src, u, p, s);
            n <= |t.content| && t.content[..n] == s[..n]
            && Demux(src, u - n, p, s[n..]) == t.(content := t.content[n..])
  {
    if |s| < u + p {
      var m := Min(u, |s|);
      assert s[n..][..m - n] == s[..m][n..];
    } else {
      DemuxDrop(src, u, p, s);
      DemuxDrop(src, u - n, p, s[n..]);
      SliceShift(s, n, u, u + p);
      DropFront(s, u, n, Demux(src, 0, 0, s[u + p..]).content);
    }
  }

  lemma SliceShift(s: seq<byte>, n: nat, i: nat, j: nat)
    requires n <= i <= j <= |s|
    ensures s[n..][i - n..j - n] == s[i..j] && s[n..][j - n..] == s[j..]
  {
  }

  lemma DropFront(s: seq<byte>, u: nat, n: nat, more: seq<byte>)
    requires n <= u <= |s|
    ensures (s[..u] + more)[..n] == s[..n] && (s[..u] + more)[n..] == s[n..][..u - n] + more
  {
  }

  /** The view after taking `n` bytes of its content. */
  function Skip(v: View, n: nat): View
    requires n <= |v.tail.content|
  {
    v.(tail := v.tail.(content := v.tail.content[n..]))
  }

  /** `data` was taken from `v`, which leaves `w`. */
  predicate Took(v: View, data: seq<byte>, w: View) {
    |data| <= |v.tail.content| && data == v.tail.content[..|data|] && w == Skip(v, |data|)
  }

  lemma TookTwice(v: View, first: seq<byte>, w: View, second: seq<byte>, x: View)
    requires Took(v, first, w) && Took(w, second, x)
    ensures Took(v, first + second, x)
  {
    var m, n, c := |first|, |second|, v.tail.content;
    assert c[m..][n..] == c[m + n..];
    assert c[..m] + c[m..][..n] == c[..m + n];
  }

  lemma SkipTwice(v: View, m: nat, n: nat)
    requires m <= |v.tail.content| && n <= |v.tail.content| - m
    ensures Skip(Skip(v, m), n) == Skip(v, m + n)
    ensures v.tail.content[m..][n..] == v.tail.content[m + n..]
    ensures v.tail.content[m..][..n] == v.tail.content[m..m + n]
  {
  }

  lemma DrawIsSkip(v: View)
    requires Draw(v).0.Byte?
    ensures 0 < |v.tail.content| && Draw(v) == (Byte(v.tail.content[0]), Skip(v, 1))
    ensures v.tail.content[..1] == [v.tail.content[0]]
  {
    if !v.ended && v.tail.content == [] {
      DrawStuck(v);
    }
  }

  lemma DrawNothing(v: View)
    requires !Draw(v).0.Byte? && (v.ended ==> v.tail.content == [])
    ensures v.tail.content == []
  {
  }

  /** Taking exposed bytes from the get area takes them from the view. */
  lemma TakeRefinesView(a: InputState, b: InputState, n: nat)
    requires n <= a.ready <= |a.pending| && !a.ended
    requires b == a.(ready := a.ready - n, pending := a.pending[n..])
    ensures n <= |ViewOf(a).tail.content| && ViewOf(a).tail.content[..n] == a.pending[..n]
    ensures ViewOf(b) == Skip(ViewOf(a), n)
  {
    DemuxTake(a.src, a.ready + a.unread, a.padding, a.pending, n);
  }

  // ---------------------------------------------------------------------------
  // Well-formed streams
  // ---------------------------------------------------------------------------

  predicate IsOwn(src: Source, r: Record) {
    r.Valid() && r.recordType == src.kind.Code() && r.id == src.id && 0 < |r.content| <= src.cap
  }

  predicate AllOwn(src: Source, rs: seq<Record>) {
    forall i :: 0 <= i < |rs| ==> IsOwn(src, rs[i])
  }

  predicate IsTerminator(src: Source, r: Record) {
    r.Valid() && r.recordType == src.kind.Code() && r.id == src.id && r.content == []
  }

  function Contents(rs: seq<Record>): seq<byte> {
    if rs == [] then [] else rs[0].content + Contents(rs[1..])
  }

  /** One record in front: its content joins what follows, or it decides the ending. */
  lemma DemuxRaw(src: Source, h: Header, content: seq<byte>, padding: seq<byte>, tail: seq<byte>)
    requires |content| == h.ContentLength() && |padding| == h.paddingLength
    ensures var v := Classify(src, h); var t := Demux(src, 0, 0, h.Bytes() + (content + padding + tail));
            if v.Own? then
              var n := Demux(src, 0, 0, tail);
              t == Tail(content + n.content, n.ending, n.rest)
            else t == Tail([], At(v, h), content + padding + tail)
  {
    var body := content + padding + tail;
    HeaderInFront(src, h, body);
    if Classify(src, h).Own? {
      DemuxDrop(src, |content|, |padding|, body);
      assert body[..|content|] == content && body[|content| + |padding|..] == tail;
    }
  }

  lemma HeaderInFront(src: Source, h: Header, body: seq<byte>)
    ensures Demux(src, 0, 0, h.Bytes() + body) == Behind(src, h, body)
  {
    var s := h.Bytes() + body;
    OwnStep(src, 0, s);
    assert s[0..HEADER_SIZE] == h.Bytes() && s[HEADER_SIZE..] == body;
  }

  lemma DemuxRecord(src: Source, r: Record, tail: seq<byte>)
    requires r.Valid()
    ensures var v := Classify(src, r.Head()); var t := Demux(src, 0, 0, r.Bytes() + tail);
            if v.Own? then
              var n := Demux(src, 0, 0, tail);
              t == Tail(r.content + n.content, n.ending, n.rest)
            else t == Tail([], At(v, r.Head()), r.content + r.padding + tail)
  {
    HeaderRoundTrip(r.recordType, r.id, |r.content|, |r.padding|);
    DemuxRaw(src, r.Head(), r.content, r.padding, tail);
    assert r.Bytes() + tail == r.Head().Bytes() + (r.content + r.padding + tail);
  }

  lemma OwnFront(src: Source, r: Record, more: seq<byte>, s: seq<byte>)
    requires 0 < src.id && IsOwn(src, r)
    ensures var n := Demux(src, 0, 0, more + s);
            Demux(src, 0, 0, r.Bytes() + more + s) == Tail(r.content + n.content, n.ending, n.rest)
  {
    DemuxRecord(src, r, more + s);
    OwnHeader(src, r);
    Records.Associate(r.Bytes(), more, s);
  }

  /** Own records in front of anything: their contents join what follows. */
  lemma {:induction false} DemuxPrefix(src: Source, rs: seq<Record>, s: seq<byte>)
    requires 0 < src.id && AllOwn(src, rs)
    ensures var n := Demux(src, 0, 0, s);
            Demux(src, 0, 0, Encode(rs) + s) == Tail(Contents(rs) + n.content, n.ending, n.rest)
  {
    var n := Demux(src, 0, 0, s);
    if rs == [] {
      assert Encode(rs) + s == s && Contents(rs) + n.content == n.content;
    } else {
      DemuxPrefix(src, rs[1..], s);
      OwnFront(src, rs[0], Encode(rs[1..]), s);
      Records.Associate(rs[0].content, Contents(rs[1..]), n.content);
    }
  }

  /** An own record list and its terminator deliver the concatenated contents, whatever follows. */
  lemma DemuxStream(src: Source, rs: seq<Record>, end: Record, tail: seq<byte>)
    requires 0 < src.id && AllOwn(src, rs) && IsTerminator(src, end)
    ensures Demux(src, 0, 0, Encode(rs) + (end.Bytes() + tail))
         == Tail(Contents(rs), At(EndOfStream, end.Head()), end.padding + tail)
  {
    DemuxTerminator(src, end, tail);
    DemuxPrefix(src, rs, end.Bytes() + tail);
    assert Contents(rs) + [] == Contents(rs);
  }

  lemma DemuxTerminator(src: Source, end: Record, tail: seq<byte>)
    requires 0 < src.id && IsTerminator(src, end)
    ensures Demux(src, 0, 0, end.Bytes() + tail) == Tail([], At(EndOfStream, end.Head()), end.padding + tail)
  {
    DemuxRecord(src, end, tail);
    OwnHeader(src, end);
    assert [] + end.padding + tail == end.padding + tail;
  }

  lemma OwnHeader(src: Source, r: Record)
    requires 0 < src.id && r.Valid() && r.recordType == src.kind.Code() && r.id == src.id
    ensures |r.content| == 0 ==> Classify(src, r.Head()) == EndOfStream
    ensures 0 < |r.content| <= src.cap ==> Classify(src, r.Head()) == Own
    ensures |r.content| > src.cap ==> Classify(src, r.Head()) == Oversized
  {
    HeaderRoundTrip(r.recordType, r.id, |r.content|, |r.padding|);
  }

  /**
    * After any own records, a further record of the stream ends the process by a failed
    * assertion exactly when its content exceeds the buffer.
    */
  lemma OversizedRecordAborts(src: Source, rs: seq<Record>, r: Record, tail: seq<byte>)
    requires 0 < src.id && AllOwn(src, rs)
    requires r.Valid() && r.recordType == src.kind.Code() && r.id == src.id
    ensures var t := Demux(src, 0, 0, Encode(rs) + (r.Bytes() + tail));
            (t.content == Contents(rs) && Fate(src, t.ending, t.rest) == Aborted) <==> |r.content| > src.cap
  {
    DemuxPrefix(src, rs, r.Bytes() + tail);
    DemuxRecord(src, r, tail);
    OwnHeader(src, r);
    assert Contents(rs) + [] == Contents(rs);
  }

  // ---------------------------------------------------------------------------
  // Every byte is accounted for
  // ---------------------------------------------------------------------------

  /** A record as it came: any header, with content and padding of the lengths it announces. */
  datatype Raw = Raw(header: Header, content: seq<byte>, padding: seq<byte>)
  {
    predicate Valid() {
      |content| == header.ContentLength() && |padding| == header.paddingLength
    }

    function Bytes(): seq<byte> {
      header.Bytes() + content + padding
    }
  }

  function RawBytes(raws: seq<Raw>): seq<byte> {
    if raws == [] then [] else raws[0].Bytes() + RawBytes(raws[1..])
  }

  function RawContents(raws: seq<Raw>): seq<byte> {
    if raws == [] then [] else raws[0].content + RawContents(raws[1..])
  }

  predicate AllRawOwn(src: Source, raws: seq<Raw>) {
    forall i :: 0 <= i < |raws| ==> raws[i].Valid() && Classify(src, raws[i].header).Own?
  }

  /** The bytes are own records, the header that decides the ending, and the rest. */
  predicate Accounted(src: Source, s: seq<byte>, raws: seq<Raw>) {
    var t := Demux(src, 0, 0, s);
    && t.ending.At? && AllRawOwn(src, raws) && RawContents(raws) == t.content
    && s == RawBytes(raws) + (t.ending.header.Bytes() + t.rest)
    && t.ending.verdict == Classify(src, t.ending.header) && !t.ending.verdict.Own?
  }

  /**
    * On any bytes at all: when a reader comes to a header that ends its stream, the bytes are
    * the own records before it, that header, and the rest; and the content delivered is the
    * content of those records. No byte is used twice and none is passed over.
    */
  lemma {:induction false} DemuxSound(src: Source, s: seq<byte>) returns (raws: seq<Raw>)
    requires Demux(src, 0, 0, s).ending.At?
    ensures Accounted(src, s, raws)
    decreases |s|
  {
    HeaderFront(src, s);
    var h, after := HeaderOf(s[..HEADER_SIZE]), s[HEADER_SIZE..];
    if Classify(src, h).Own? {
      var n := h.ContentLength() + h.paddingLength;
      var rest := DemuxSound(src, after[n..]);
      AccountedOwn(src, s, h, rest);
      raws := [Raw(h, after[..h.ContentLength()], after[h.ContentLength()..n])] + rest;
    } else {
      raws := [];
      assert s == s[..HEADER_SIZE] + after;
    }
  }

  lemma AccountedOwn(src: Source, s: seq<byte>, h: Header, rest: seq<Raw>)
    requires Demux(src, 0, 0, s).ending.At? && |s| >= HEADER_SIZE && h == HeaderOf(s[..HEADER_SIZE])
              && Classify(src, h).Own?
    requires |s[HEADER_SIZE..]| >= h.ContentLength() + h.paddingLength
    requires Accounted(src, s[HEADER_SIZE..][h.ContentLength() + h.paddingLength..], rest)
    ensures var after, c, n := s[HEADER_SIZE..], h.ContentLength(), h.ContentLength() + h.paddingLength;
            Accounted(src, s, [Raw(h, after[..c], after[c..n])] + rest)
  {
    HeaderFront(src, s);
    var after, c, n := s[HEADER_SIZE..], h.ContentLength(), h.ContentLength() + h.paddingLength;
    var t := Demux(src, 0, 0, after[n..]);
    RawCons(Raw(h, after[..c], after[c..n]), rest, s, t.ending, t.rest);
  }

  /** The header in front, and for an own record its body, of bytes on which a stream ends. */
  lemma HeaderFront(src: Source, s: seq<byte>)
    requires Demux(src, 0, 0, s).ending.At?
    ensures |s| >= HEADER_SIZE
    ensures var h, after := HeaderOf(s[..HEADER_SIZE]), s[HEADER_SIZE..];
            var c, p := h.ContentLength(), h.paddingLength;
            && h.Bytes() == s[..HEADER_SIZE]
            && if Classify(src, h).Own? then
                 && |after| >= c + p
                 && var n := Demux(src, 0, 0, after[c + p..]);
                    Demux(src, 0, 0, s) == Tail(after[..c] + n.content, n.ending, n.rest)
               else Demux(src, 0, 0, s) == Tail([], At(Classify(src, h), h), after)
  {
    OwnStep(src, 0, s);
    assert s[0..HEADER_SIZE] == s[..HEADER_SIZE];
    var h, after := HeaderOf(s[..HEADER_SIZE]), s[HEADER_SIZE..];
    if Classify(src, h).Own? && |after| >= h.ContentLength() + h.paddingLength {
      DemuxDrop(src, h.ContentLength(), h.paddingLength, after);
    }
  }

  lemma RawCons(first: Raw, rest: seq<Raw>, s: seq<byte>, ending: Ending, behind: seq<byte>)
    requires |s| >= HEADER_SIZE && ending.At? && first.Valid() && first.header.Bytes() == s[..HEADER_SIZE]
    requires var after := s[HEADER_SIZE..]; var c := |first.content|; var n := c + |first.padding|;
             |after| >= n && first.content == after[..c] && first.padding == after[c..n]
             && after[n..] == RawBytes(rest) + (ending.header.Bytes() + behind)
    ensures s == RawBytes([first] + rest) + (ending.header.Bytes() + behind)
    ensures RawContents([first] + rest) == first.content + RawContents(rest)
  {
    var c, n := |first.content|, |first.content| + |first.padding|;
    FourPieces(s, HEADER_SIZE, c, n);
    assert s == first.Bytes() + (RawBytes(rest) + (ending.header.Bytes() + behind));
    Records.Associate(first.Bytes(), RawBytes(rest), ending.header.Bytes() + behind);
    assert ([first] + rest)[1..] == rest;
  }

  lemma FourPieces(s: seq<byte>, h: nat, c: nat, n: nat)
    requires h + n <= |s| && c <= n
    ensures s == s[..h] + s[h..][..c] + s[h..][c..n] + s[h..][n..]
  {
  }

  /** And conversely such bytes are read that way. */
  lemma {:induction false} DemuxComplete(src: Source, raws: seq<Raw>, h: Header, rest: seq<byte>)
    requires AllRawOwn(src, raws) && !Classify(src, h).Own?
    ensures Demux(src, 0, 0, RawBytes(raws) + (h.Bytes() + rest))
              == Tail(RawContents(raws), At(Classify(src, h), h), rest)
  {
    var x := h.Bytes() + rest;
    if raws == [] {
      assert RawBytes(raws) + x == x;
      assert x[0..HEADER_SIZE] == h.Bytes() && x[HEADER_SIZE..] == rest;
      OwnStep(src, 0, x);
    } else {
      DemuxComplete(src, raws[1..], h, rest);
      RawFront(src, raws[0], RawBytes(raws[1..]), x);
    }
  }

  lemma RawFront(src: Source, r: Raw, more: seq<byte>, x: seq<byte>)
    requires r.Valid() && Classify(src, r.header).Own?
    ensures var n := Demux(src, 0, 0, more + x);
            Demux(src, 0, 0, r.Bytes() + more + x) == Tail(r.content + n.content, n.ending, n.rest)
  {
    DemuxRaw(src, r.header, r.content, r.padding, more + x);
    assert r.Bytes() + more + x == r.header.Bytes() + (r.content + r.padding + (more + x));
  }

  /** One call of underflow moves on over old padding and a header, and over nothing else. */
  lemma PullConserves(a: InputState, b: InputState, r: Pull)
    requires a.ready == 0 && Pulled(a, b, r) && (r.Byte? || r.Eof?)
    ensures var used := if a.ended || a.unread > 0 then 0 else a.padding + HEADER_SIZE;
            && used <= |a.pending| && b.pending == a.pending[used..]
            && (r.Byte? ==> 0 < b.ready <= |b.pending| && r.b == b.pending[0])
  {
    if a.ended || a.unread > 0 {
      assert a.pending[0..] == a.pending;
    }
  }
}
