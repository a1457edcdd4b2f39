/**
  * Whole runs of a reader: what character after character taken from an open stream yields,
  * across the switch from standard input to filter data, and what foreign records and padded
  * terminators do to it.
  */
module InputRuns {
  import opened Basics
  import opened Records
  import opened Input

  /** The outcomes of taking `n` characters one after the other. */
  function Draws(v: View, n: nat): (rs: seq<Pull>)
    ensures |rs| == n
    decreases n
  {
    if n == 0 then [] else [Draw(v).0] + Draws(Draw(v).1, n - 1)
  }

  function After(v: View, n: nat): View
    decreases n
  {
    if n == 0 then v else After(Draw(v).1, n - 1)
  }

  /** Taken bytes as outcomes. */
  function BytesAs(s: seq<byte>): (rs: seq<Pull>)
    ensures |rs| == |s|
  {
    seq(|s|, i requires 0 <= i < |s| => Byte(s[i]))
  }

  function Eofs(n: nat): (rs: seq<Pull>)
    ensures |rs| == n
  {
    seq(n, _ => Eof)
  }

  lemma {:induction false} DrawsSplit(v: View, m: nat, n: nat)
    ensures Draws(v, m + n) == Draws(v, m) + Draws(After(v, m), n)
    ensures After(v, m + n) == After(After(v, m), n)
    decreases m
  {
    if m == 0 {
      assert [] + Draws(v, n) == Draws(v, n);
    } else {
      DrawsSplit(Draw(v).1, m - 1, n);
    }
  }

  /** Taking characters from `v` yielded `rs` and leaves `w`. */
  predicate Drew(v: View, rs: seq<Pull>, w: View) {
    rs == Draws(v, |rs|) && w == After(v, |rs|)
  }

  lemma DrewOne(v: View, rs: seq<Pull>, w: View)
    requires Drew(v, rs, w)
    ensures Drew(v, rs + [Draw(w).0], Draw(w).1)
  {
    DrawsSplit(v, |rs|, 1);
    assert Draws(w, 1) == [Draw(w).0] + Draws(Draw(w).1, 0);
    assert After(w, 1) == After(Draw(w).1, 0);
  }

  lemma {:induction false} DrawContent(v: View, n: nat)
    requires !v.ended && n <= |v.tail.content|
    ensures Draws(v, n) == BytesAs(v.tail.content[..n]) && After(v, n) == Skip(v, n)
    decreases n
  {
    if n > 0 {
      var c, w := v.tail.content, Skip(v, 1);
      assert Draw(v) == (Byte(c[0]), w);
      DrawContent(w, n - 1);
      assert c[1..][..n - 1] == c[1..n] && c[1..][n - 1..] == c[n..];
      assert BytesAs(c[..n]) == [Byte(c[0])] + BytesAs(c[1..n]);
    }
  }

  /** The end of file is sticky. */
  lemma {:induction false} DrawEnded(v: View, n: nat)
    requires v.ended
    ensures Draws(v, n) == Eofs(n) && After(v, n) == v
  {
    if n > 0 {
      DrawEnded(v, n - 1);
      assert Eofs(n) == [Eof] + Eofs(n - 1);
    }
  }

  predicate Complete(v: View) {
    !v.ended && Fate(v.src, v.tail.ending, v.tail.rest).Eof?
  }

  /** One complete phase: all its content, then one end of file, then the next phase. */
  lemma DrawPhase(v: View)
    requires Complete(v)
    ensures var n := |v.tail.content|;
            Draws(v, n + 1) == BytesAs(v.tail.content) + [Eof] && After(v, n + 1) == AfterEnd(Skip(v, n))
  {
    var n := |v.tail.content|;
    DrawContent(v, n);
    assert v.tail.content[..n] == v.tail.content;
    var w := Skip(v, n);
    DrawStuck(w);
    DrawsSplit(v, n, 1);
    assert Draws(w, 1) == [Eof] + Draws(Draw(w).1, 0);
    assert After(w, 1) == After(Draw(w).1, 0);
  }

  /** Any other stream ends for ever with its content. */
  lemma SinglePhaseRun(v: View, k: nat)
    requires Complete(v) && !(v.role.Filter? && v.src.kind.In?)
    ensures Draws(v, |v.tail.content| + 1 + k) == BytesAs(v.tail.content) + [Eof] + Eofs(k)
  {
    DrawPhase(v);
    var n := |v.tail.content| + 1;
    DrawsSplit(v, n, k);
    DrawEnded(After(v, n), k);
  }

  /**
    * A Filter reads all of its standard input, one end of file, all of the data that follows
    * on the same bytes, and then ends of file for ever.
    */
  lemma FilterRun(v: View, d: View, k: nat)
    requires Complete(v) && Complete(d) && d.src.kind.Data? && AfterEnd(Skip(v, |v.tail.content|)) == d
    ensures Draws(v, |v.tail.content| + 1 + (|d.tail.content| + 1 + k))
            == BytesAs(v.tail.content) + [Eof] + (BytesAs(d.tail.content) + [Eof] + Eofs(k))
  {
    var n := |d.tail.content| + 1 + k;
    PhaseThen(v, d, n);
    SinglePhaseRun(d, k);
  }

  /** A complete phase in front of whatever the next one yields. */
  lemma PhaseThen(v: View, d: View, n: nat)
    requires Complete(v) && AfterEnd(Skip(v, |v.tail.content|)) == d
    ensures Draws(v, |v.tail.content| + 1 + n) == BytesAs(v.tail.content) + [Eof] + Draws(d, n)
  {
    DrawPhase(v);
    DrawsSplit(v, |v.tail.content| + 1, n);
  }

  /** A stream never changes its type but once, and only for a Filter, from `in` to `data`. */
  lemma {:induction false} PhaseOrder(v: View, n: nat)
    ensures var w := After(v, n);
            && w.role == v.role && w.src.id == v.src.id && w.src.cap == v.src.cap
            && (w.src.kind == v.src.kind || (v.role.Filter? && v.src.kind.In? && w.src.kind.Data?))
    decreases n
  {
    if n > 0 {
      PhaseOrder(Draw(v).1, n - 1);
    }
  }

  // ---------------------------------------------------------------------------
  // Where the peer goes away
  // ---------------------------------------------------------------------------

  /** What of the contents is among the first `n` bytes. */
  function ContentWithin(rs: seq<Record>, n: nat): seq<byte> {
    if rs == [] then []
    else
      var size := |rs[0].Bytes()|;
      if n >= size then rs[0].content + ContentWithin(rs[1..], n - size)
      else if n <= HEADER_SIZE then []
      else rs[0].content[..Min(n - HEADER_SIZE, |rs[0].content|)]
  }

  /**
    * A stream that is cut off behind `n` bytes delivers the content among them. It comes to its end
    * exactly if the header of its terminator is among them; otherwise the read fails by an exception.
    */
  lemma {:induction false} CutStream(src: Source, rs: seq<Record>, end: Record, n: nat)
    requires 0 < src.id && AllOwn(src, rs) && IsTerminator(src, end) && n <= |Encode(rs) + end.Bytes()|
    ensures var t := Demux(src, 0, 0, (Encode(rs) + end.Bytes())[..n]);
            && t.content == ContentWithin(rs, n)
            && Fate(src, t.ending, t.rest) == if n >= |Encode(rs)| + HEADER_SIZE then Eof else Threw
  {
    if rs == [] {
      assert Encode(rs) + end.Bytes() == end.Bytes();
      CutTerminator(src, end, n);
    } else {
      var r, more := rs[0], Encode(rs[1..]) + end.Bytes();
      Records.Associate(r.Bytes(), Encode(rs[1..]), end.Bytes());
      if n >= |r.Bytes()| {
        CutStream(src, rs[1..], end, n - |r.Bytes()|);
        assert (r.Bytes() + more)[..n] == r.Bytes() + more[..n - |r.Bytes()|];
        DemuxRecord(src, r, more[..n - |r.Bytes()|]);
        OwnHeader(src, r);
      } else {
        assert (r.Bytes() + more)[..n] == r.Bytes()[..n];
        CutRecord(src, r, n);
      }
    }
  }

  lemma CutTerminator(src: Source, end: Record, n: nat)
    requires 0 < src.id && IsTerminator(src, end) && n <= |end.Bytes()|
    ensures var t := Demux(src, 0, 0, end.Bytes()[..n]);
            t.content == [] && Fate(src, t.ending, t.rest) == if n >= HEADER_SIZE then Eof else Threw
  {
    if n >= HEADER_SIZE {
      OwnHeader(src, end);
      HeaderInFront(src, end.Head(), end.Bytes()[HEADER_SIZE..n]);
      assert end.Bytes()[..n] == end.Head().Bytes() + end.Bytes()[HEADER_SIZE..n];
    }
  }

  lemma CutRecord(src: Source, r: Record, n: nat)
    requires 0 < src.id && IsOwn(src, r) && n < |r.Bytes()|
    ensures var t := Demux(src, 0, 0, r.Bytes()[..n]);
            && t.content == (if n <= HEADER_SIZE then [] else r.content[..Min(n - HEADER_SIZE, |r.content|)])
            && Fate(src, t.ending, t.rest) == Threw
  {
    if n >= HEADER_SIZE {
      var body := r.Bytes()[HEADER_SIZE..n];
      OwnHeader(src, r);
      HeaderRoundTrip(r.recordType, r.id, |r.content|, |r.padding|);
      HeaderInFront(src, r.Head(), body);
      CutThree(r.Head().Bytes(), r.content, r.padding, n);
    }
  }

  lemma CutThree(h: seq<byte>, c: seq<byte>, p: seq<byte>, n: nat)
    requires |h| <= n <= |h + c + p|
    ensures var body := (h + c + p)[|h|..n];
            (h + c + p)[..n] == h + body && body[..Min(|c|, |body|)] == c[..Min(n - |h|, |c|)]
  {
    var s, m := h + c + p, Min(n - |h|, |c|);
    assert s[..|h|] == h && s[..n] == s[..|h|] + s[|h|..n];
    assert s[|h|..|h| + m] == c[..m] && s[|h|..n][..m] == s[|h|..|h| + m];
  }

  // ---------------------------------------------------------------------------
  // The hand-off between phases
  // ---------------------------------------------------------------------------

  /** Where the version byte is not 1 a reader gives up without delivering anything. */
  lemma BadStart(src: Source, s: seq<byte>)
    requires |s| >= HEADER_SIZE && s[0] != 1
    ensures var t := Demux(src, 0, 0, s); t.content == [] && Fate(src, t.ending, t.rest) == Threw
  {
    OwnStep(src, 0, s);
  }

  /** The next stream, behind a terminator's padding, is read as if the padding were not there. */
  predicate HandsOver(src: Source, padding: seq<byte>, s: seq<byte>) {
    Demux(src, 0, 0, padding + s) == Demux(src, 0, 0, s)
  }

  /**
    * The padding of a terminating record is forgotten, not skipped. Every next stream that is
    * complete is read correctly behind every padding of `n` bytes exactly when `n` is zero.
    */
  lemma HandOffNeedsNoPadding(src: Source, rs: seq<Record>, end: Record, tail: seq<byte>, n: nat)
    requires 0 < src.id && AllOwn(src, rs) && IsTerminator(src, end) && n <= MAX_PADDING
    ensures var s := Encode(rs) + (end.Bytes() + tail);
            (forall padding: seq<byte> :: |padding| == n ==> HandsOver(src, padding, s)) <==> n == 0
  {
    var s := Encode(rs) + (end.Bytes() + tail);
    if n == 0 {
      forall padding: seq<byte> | |padding| == 0 ensures HandsOver(src, padding, s) {
        assert padding + s == s;
      }
    } else {
      DemuxStream(src, rs, end, tail);
      BadStart(src, Zeros(n) + s);
      assert |Zeros(n)| == n && !HandsOver(src, Zeros(n), s);
    }
  }

  lemma DemuxUnpadded(src: Source, rs: seq<Record>, end: Record, next: seq<byte>)
    requires 0 < src.id && AllOwn(src, rs) && IsTerminator(src, end) && end.padding == []
    ensures Demux(src, 0, 0, Encode(rs) + (end.Bytes() + next)) == Tail(Contents(rs), At(EndOfStream, end.Head()), next)
  {
    DemuxStream(src, rs, end, next);
    assert [] + next == next;
  }

  /** A view whose content is `content`, ending in an end of file with `rest` behind it. */
  predicate Delivers(t: Tail, content: seq<byte>, rest: seq<byte>) {
    t.content == content && t.ending.At? && t.ending.verdict.EndOfStream? && t.rest == rest
  }

  /** Two streams on the same bytes: the first phase delivers the first, the next the second. */
  lemma PhasesDeliver(first: Source, rs: seq<Record>, end: Record, second: Source, ss: seq<Record>, end': Record,
      tail: seq<byte>)
    requires 0 < first.id && AllOwn(first, rs) && IsTerminator(first, end) && end.padding == []
    requires 0 < second.id && AllOwn(second, ss) && IsTerminator(second, end')
    ensures var next := Encode(ss) + (end'.Bytes() + tail);
            && Delivers(Demux(first, 0, 0, Encode(rs) + (end.Bytes() + next)), Contents(rs), next)
            && Delivers(Demux(second, 0, 0, next), Contents(ss), end'.padding + tail)
  {
    DemuxUnpadded(first, rs, end, Encode(ss) + (end'.Bytes() + tail));
    DemuxStream(second, ss, end', tail);
  }

  // ---------------------------------------------------------------------------
  // Foreign records
  // ---------------------------------------------------------------------------

  /** A record of another request, or a further BEGIN_REQUEST: process_header asks to discard it. */
  predicate IsForeign(src: Source, r: Record) {
    r.Valid() && (r.recordType == BEGIN_REQUEST || (r.id != 0 && r.id != src.id))
  }

  /** How the call ends that meets a foreign record with bytes behind it. */
  function ForeignFate(src: Source, r: Record): Pull {
    if |r.content| > src.cap then Aborted else if |r.content| + |r.padding| > 0 then Threw else Spins
  }

  predicate AllOwnOrForeign(src: Source, rs: seq<Record>) {
    forall i :: 0 <= i < |rs| ==> IsOwn(src, rs[i]) || IsForeign(src, rs[i])
  }

  /** The leading own records. */
  function OwnPrefix(src: Source, rs: seq<Record>): (n: nat)
    ensures n <= |rs| && AllOwn(src, rs[..n]) && (n < |rs| ==> !IsOwn(src, rs[n]))
  {
    if rs == [] || !IsOwn(src, rs[0]) then 0
    else
      var n := OwnPrefix(src, rs[1..]);
      assert rs[..n + 1] == [rs[0]] + rs[1..][..n];
      n + 1
  }

  /** `t` stops at the first record of `rs` that is not an own one, or at the end behind them. */
  predicate StopsAtForeign(src: Source, rs: seq<Record>, t: Tail) {
    var n, fate := OwnPrefix(src, rs), Fate(src, t.ending, t.rest);
    && t.content == Contents(rs[..n]) && (fate == Eof <==> n == |rs|)
    && (n < |rs| ==> fate == ForeignFate(src, rs[n]))
  }

  /**
    * Foreign records are meant to be discarded and passed over. They never are: the reader
    * delivers the own content before the first of them and nothing behind it, so a stream comes
    * to its end exactly when it holds none. The call that meets one ends the process if the
    * record's content exceeds the buffer; else it fails with an exception if the record has any
    * content or padding, and never returns if it has neither.
    */
  lemma ForeignNeverPassed(src: Source, rs: seq<Record>, end: Record, tail: seq<byte>)
    requires 0 < src.id && AllOwnOrForeign(src, rs) && IsTerminator(src, end)
    ensures StopsAtForeign(src, rs, Demux(src, 0, 0, Encode(rs) + (end.Bytes() + tail)))
  {
    if OwnPrefix(src, rs) == |rs| {
      assert rs[..|rs|] == rs;
      NoForeign(src, rs, end, tail);
    } else {
      UpToForeign(src, rs, end.Bytes() + tail);
    }
  }

  lemma NoForeign(src: Source, rs: seq<Record>, end: Record, tail: seq<byte>)
    requires 0 < src.id && OwnPrefix(src, rs) == |rs| && rs[..|rs|] == rs && IsTerminator(src, end)
    ensures StopsAtForeign(src, rs, Demux(src, 0, 0, Encode(rs) + (end.Bytes() + tail)))
  {
    DemuxStream(src, rs, end, tail);
  }

  lemma UpToForeign(src: Source, rs: seq<Record>, s: seq<byte>)
    requires 0 < src.id && OwnPrefix(src, rs) < |rs| && AllOwnOrForeign(src, rs) && s != []
    ensures StopsAtForeign(src, rs, Demux(src, 0, 0, Encode(rs) + s))
  {
    var n := OwnPrefix(src, rs);
    EncodeSplit(rs, n, s);
    FirstForeign(src, rs[..n], rs[n], Encode(rs[n + 1..]) + s);
  }

  /** The bytes up to a record, of the record, and behind it. */
  lemma {:induction false} EncodeSplit(rs: seq<Record>, n: nat, s: seq<byte>)
    requires n < |rs|
    ensures Encode(rs) + s == Encode(rs[..n]) + (rs[n].Bytes() + (Encode(rs[n + 1..]) + s))
  {
    if n == 0 {
      Records.Associate(rs[0].Bytes(), Encode(rs[1..]), s);
    } else {
      EncodeSplit(rs[1..], n - 1, s);
      assert rs[1..][..n - 1] == rs[..n][1..] && rs[1..][n..] == rs[n + 1..];
      Records.Associate(rs[0].Bytes(), Encode(rs[1..]), s);
      Records.Associate(rs[0].Bytes(), Encode(rs[..n][1..]), rs[n].Bytes() + (Encode(rs[n + 1..]) + s));
    }
  }

  lemma FirstForeign(src: Source, own: seq<Record>, r: Record, behind: seq<byte>)
    requires 0 < src.id && AllOwn(src, own) && IsForeign(src, r) && behind != []
    ensures var t := Demux(src, 0, 0, Encode(own) + (r.Bytes() + behind));
            && t.content == Contents(own)
            && Fate(src, t.ending, t.rest) == ForeignFate(src, r)
  {
    ForeignHead(src, r, behind);
    DemuxPrefix(src, own, r.Bytes() + behind);
    assert Contents(own) + [] == Contents(own);
  }

  lemma ForeignHead(src: Source, r: Record, behind: seq<byte>)
    requires IsForeign(src, r) && behind != []
    ensures var t := Demux(src, 0, 0, r.Bytes() + behind);
            t.content == [] && Fate(src, t.ending, t.rest) == ForeignFate(src, r)
  {
    DemuxRecord(src, r, behind);
    HeaderRoundTrip(r.recordType, r.id, |r.content|, |r.padding|);
  }
}
