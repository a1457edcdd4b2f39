/** The Names_values constructor of src/fcgi/basics.cpp, reading from a stream buffer. */
module Parameters {
  import opened Basics
  import opened Input
  import opened NamesValues
  import Records
  import opened StreamBuffers

  /** A length, or the end of the stream in its place, or inside it. */
  datatype LengthRead = Got(n: nat) | Missing(last: Pull) | Broken(last: Pull)

  /** A pair, or the end of the stream in its place, or a violation with what led to it. */
  datatype PairRead = One(pair: Pair) | NoPair(last: Pull) | Malformed(why: Pull)

  /** The pairs with what ended them, or what ended the attempt. */
  datatype PairsRead = AllPairs(pairs: seq<Pair>, last: Pull) | Rejected(why: Pull)

  /** The stream holds complete pairs only, and comes to its end behind them. */
  predicate Sound(v: View) {
    Parse(v.tail.content).Ok? && Draw(Drained(v)).0.Eof?
  }

  function Drained(v: View): View {
    Skip(v, |v.tail.content|)
  }

  /** An end of the stream in the wrong place is an exception. */
  function AsFailure(last: Pull): Pull {
    if last.Eof? then Threw else last
  }

  /** How reading the parameters fails, where they are not sound. */
  function Failure(v: View): Pull {
    if Parse(v.tail.content) == Err(SumOverflow) then Threw else AsFailure(Draw(Drained(v)).0)
  }

  /**
    * What a failure can be: never a byte or an end of file; the end of the process, a loop that
    * never ends or a management record exactly behind the header that stands for it, unless two
    * lengths were refused before; and an exception otherwise.
    */
  lemma FailureKinds(v: View)
    ensures !Failure(v).Byte? && !Failure(v).Eof?
    ensures var refused := Parse(v.tail.content) == Err(SumOverflow); var e := v.tail.ending;
            && (Failure(v).Aborted? <==> !refused && !v.ended && e.At? && Breaks(v.src, e.verdict, e.header))
            && (Failure(v).Spins? <==>
                  && !refused && !v.ended && e.At? && e.verdict.Foreign? && v.tail.rest != []
                  && e.header.ContentLength() == e.header.paddingLength == 0)
            && (Failure(v).Stopped? <==> !refused && !v.ended && e.At? && e.verdict.Management?)
  {
    if !v.ended {
      DrawStuck(Drained(v));
    }
  }

  /** The content that this header announces fails the assertion of process_header. */
  predicate Breaks(src: Source, verdict: Verdict, h: Records.Header) {
    verdict.Oversized? || (verdict.Foreign? && h.ContentLength() > src.cap)
  }

  /** All of the content has been taken; `last` and what was written are what its ending calls for. */
  predicate RanOut(v: View, last: Pull, before: seq<byte>, after: seq<byte>) {
    last == Draw(Drained(v)).0 && Answers(v, before, after)
  }

  /** What a failed attempt to read the parameters writes. */
  predicate FailureAnswers(v: View, before: seq<byte>, after: seq<byte>) {
    if Parse(v.tail.content) == Err(SumOverflow) then after == before else Answers(v, before, after)
  }

  lemma NothingToDrain(v: View)
    requires v.tail.content == []
    ensures Drained(v) == v
  {
  }

  method ReadLength(sb: Streambuf) returns (r: LengthRead)
    requires sb.Reading()
    modifies sb`get, sb`bufferEnd, sb`kind, sb`unreadContent, sb`unreadPadding, sb`endOfStream, sb`mustDiscard
    modifies sb.buffer, sb.connection.io
    ensures sb.Settled() && old(sb.connection.io.history) <= sb.connection.io.history
    ensures var v, wire := old(sb.TheView()), old(sb.connection.io.wire);
            match NamesValues.ReadLength(v.tail.content)
            case NoLength =>
              && r.Missing? && RanOut(v, r.last, wire, sb.connection.io.wire)
              && (r.last.Eof? ==> sb.Reading() && sb.TheView() == Draw(v).1 && sb.connection.io.wire == wire)
            case CutLength => r.Broken? && RanOut(v, r.last, wire, sb.connection.io.wire)
            case Length(n, used) =>
              r == Got(n) && sb.Reading() && sb.TheView() == Skip(v, used) && sb.connection.io.wire == wire
  {
    ghost var v := sb.TheView();
    var result := sb.Sbumpc();
    if !result.Byte? {
      DrawNothing(v);
      NothingToDrain(v);
      return Missing(result);
    }
    DrawIsSkip(v);
    if result.b < 128 {
      return Got(result.b);
    }
    ghost var w := sb.TheView();
    var buf, last := sb.Xsgetn(3);
    if |buf| < 3 {
      SkipTwice(v, 1, |buf|);
      return Broken(last);
    }
    TookTwice(v, [result.b], w, buf, sb.TheView());
    r := Got(WideLength(result.b, buf[0], buf[1], buf[2]));
  }

  /** Both lengths, or what stands in their way. */
  datatype LengthsRead = Both(n: nat, m: nat) | NoLengths(last: Pull) | CutShort(last: Pull)

  method ReadLengths(sb: Streambuf) returns (r: LengthsRead)
    requires sb.Reading()
    modifies sb`get, sb`bufferEnd, sb`kind, sb`unreadContent, sb`unreadPadding, sb`endOfStream, sb`mustDiscard
    modifies sb.buffer, sb.connection.io
    ensures sb.Settled() && old(sb.connection.io.history) <= sb.connection.io.history
    ensures var v, wire := old(sb.TheView()), old(sb.connection.io.wire);
            match LengthsOf(v.tail.content)
            case Some((n, m, used)) =>
              r == Both(n, m) && sb.Reading() && sb.TheView() == Skip(v, used) && sb.connection.io.wire == wire
            case None =>
              && !r.Both? && RanOut(v, r.last, wire, sb.connection.io.wire) && (r.NoLengths? <==> v.tail.content == [])
              && (r.NoLengths? && r.last.Eof? ==>
                    sb.Reading() && sb.TheView() == Draw(v).1 && sb.connection.io.wire == wire)
  {
    ghost var v := sb.TheView();
    var nameLength := ReadLength(sb);
    if nameLength.Missing? {
      return NoLengths(nameLength.last);
    } else if nameLength.Broken? {
      return CutShort(nameLength.last);
    }
    ghost var w := sb.TheView();
    var valueLength := ReadLength(sb);
    SkipTwice(v, |v.tail.content| - |w.tail.content|, |w.tail.content|);
    if !valueLength.Got? {
      return CutShort(valueLength.last);
    }
    SkipTwice(v, |v.tail.content| - |w.tail.content|, NamesValues.ReadLength(w.tail.content).used);
    r := Both(nameLength.n, valueLength.n);
  }

  /** Reads the bytes of a name and a value. */
  method ReadData(sb: Streambuf, n: nat, m: nat) returns (r: PairRead)
    requires sb.Reading()
    modifies sb`get, sb`bufferEnd, sb`kind, sb`unreadContent, sb`unreadPadding, sb`endOfStream, sb`mustDiscard
    modifies sb.buffer, sb.connection.io
    ensures sb.Settled() && old(sb.connection.io.history) <= sb.connection.io.history
    ensures var v, wire := old(sb.TheView()), old(sb.connection.io.wire);
            if |v.tail.content| < n + m then r.Malformed? && RanOut(v, r.why, wire, sb.connection.io.wire)
            else
              && r == One(Pair(v.tail.content[..n], v.tail.content[n..n + m]))
              && sb.Reading() && sb.TheView() == Skip(v, n + m) && sb.connection.io.wire == wire
  {
    var data, last := sb.Xsgetn(n + m);
    if |data| < n + m {
      return Malformed(last);
    }
    r := One(Pair(data[..n], data[n..]));
  }

  /** What ParseFirst finds behind two lengths that are read. */
  lemma BehindLengths(v: View, n: nat, m: nat, used: nat)
    requires LengthsOf(v.tail.content) == Some((n, m, used)) && n + m < INT_LIMIT
    ensures var w, first := Skip(v, used), ParseFirst(v.tail.content); var c := w.tail.content;
            && Drained(w) == Drained(v)
            && if |c| < n + m then first == Bad(DataCut)
               else first.Take? && first.form.pair == Pair(c[..n], c[n..n + m]) && Skip(w, n + m) == Skip(v, first.used)
  {
    FirstByLengths(v.tail.content);
    var c := v.tail.content[used..];
    SkipTwice(v, used, |c|);
    if |c| >= n + m {
      SkipTwice(v, used, n + m);
    }
  }

  method ReadPair(sb: Streambuf) returns (r: PairRead)
    requires sb.Reading()
    modifies sb`get, sb`bufferEnd, sb`kind, sb`unreadContent, sb`unreadPadding, sb`endOfStream, sb`mustDiscard
    modifies sb.buffer, sb.connection.io
    ensures sb.Settled() && old(sb.connection.io.history) <= sb.connection.io.history
    ensures var v, wire := old(sb.TheView()), old(sb.connection.io.wire);
            match ParseFirst(v.tail.content)
            case Nothing =>
              && r.NoPair? && RanOut(v, r.last, wire, sb.connection.io.wire)
              && (r.last.Eof? ==> sb.Reading() && sb.TheView() == Draw(v).1 && sb.connection.io.wire == wire)
            case Bad(e) =>
              && r.Malformed?
              && if e.SumOverflow? then r.why.Threw? && sb.connection.io.wire == wire
                 else RanOut(v, r.why, wire, sb.connection.io.wire)
            case Take(f, used) =>
              r == One(f.pair) && sb.Reading() && sb.TheView() == Skip(v, used) && sb.connection.io.wire == wire
  {
    ghost var v := sb.TheView();
    var lengths := ReadLengths(sb);
    if !lengths.Both? {
      FirstByLengths(v.tail.content);
      return if lengths.NoLengths? then NoPair(lengths.last) else Malformed(lengths.last);
    }
    // The source adds two ints here; a sum outside int is undefined there and refused here.
    if lengths.n + lengths.m >= INT_LIMIT {
      FirstByLengths(v.tail.content);
      return Malformed(Threw);
    }
    BehindLengths(v, lengths.n, lengths.m, LengthsOf(v.tail.content).value.2);
    r := ReadData(sb, lengths.n, lengths.m);
  }

  /** `pairs` have been read of the stream `v`, which leaves `w`. */
  predicate ReadSoFar(v: View, pairs: seq<Pair>, w: View) {
    Parse(v.tail.content) == Prepend(pairs, Parse(w.tail.content)) && Drained(w) == Drained(v)
  }

  lemma ReadOne(v: View, pairs: seq<Pair>, w: View)
    requires ReadSoFar(v, pairs, w) && ParseFirst(w.tail.content).Take?
    ensures var r := ParseFirst(w.tail.content); ReadSoFar(v, pairs + [r.form.pair], Skip(w, r.used))
  {
    var r := ParseFirst(w.tail.content);
    PrependTwice(pairs, [r.form.pair], Parse(w.tail.content[r.used..]));
    SkipTwice(w, r.used, |w.tail.content| - r.used);
  }

  lemma ReadEnd(v: View, pairs: seq<Pair>, w: View)
    requires ReadSoFar(v, pairs, w) && !ParseFirst(w.tail.content).Take?
    ensures ParseFirst(w.tail.content).Bad? ==> Parse(v.tail.content) == Err(ParseFirst(w.tail.content).error)
    ensures ParseFirst(w.tail.content).Nothing? ==> w == Drained(v) && Parse(v.tail.content) == Ok(pairs)
  {
    assert pairs + [] == pairs;
  }

  /** What runs out behind the pairs read so far runs out of the whole stream. */
  lemma RanOutBehind(v: View, pairs: seq<Pair>, w: View, last: Pull, before: seq<byte>, after: seq<byte>)
    requires ReadSoFar(v, pairs, w) && RanOut(w, last, before, after)
    ensures RanOut(v, last, before, after)
  {
    assert Drained(v).tail.ending == Drained(w).tail.ending;
  }

  /**
    * Reads pairs to the end of the stream: to a clean end exactly if the stream is sound. A
    * failure, its kind and what it writes, is the one that the bytes call for.
    */
  method ReadPairs(sb: Streambuf) returns (r: PairsRead)
    requires sb.Reading()
    modifies sb`get, sb`bufferEnd, sb`kind, sb`unreadContent, sb`unreadPadding, sb`endOfStream, sb`mustDiscard
    modifies sb.buffer, sb.connection.io
    ensures sb.Settled() && old(sb.connection.io.history) <= sb.connection.io.history
    ensures r.AllPairs? && r.last.Eof? <==> Sound(old(sb.TheView()))
    ensures r.AllPairs? && r.last.Eof? ==>
              && Ok(r.pairs) == Parse(old(sb.TheView()).tail.content)
              && sb.Reading() && sb.TheView() == Draw(Drained(old(sb.TheView()))).1
              && sb.connection.io.wire == old(sb.connection.io.wire)
    ensures !Sound(old(sb.TheView())) ==>
              && AsFailure(if r.AllPairs? then r.last else r.why) == Failure(old(sb.TheView()))
              && FailureAnswers(old(sb.TheView()), old(sb.connection.io.wire), sb.connection.io.wire)
  {
    var pairs := [];
    ghost var v, w, wire := sb.TheView(), sb.TheView(), sb.connection.io.wire;
    PrependNone(Parse(v.tail.content));
    while true
      invariant sb.Reading() && sb.TheView() == w && ReadSoFar(v, pairs, w)
      invariant sb.connection.io.wire == wire && old(sb.connection.io.history) <= sb.connection.io.history
      decreases |w.tail.content|
    {
      var next := ReadPair(sb);
      match next {
        case NoPair(last) =>
          ReadEnd(v, pairs, w);
          RanOutBehind(v, pairs, w, last, wire, sb.connection.io.wire);
          return AllPairs(pairs, last);
        case Malformed(why) =>
          ReadEnd(v, pairs, w);
          if !ParseFirst(w.tail.content).error.SumOverflow? {
            RanOutBehind(v, pairs, w, why, wire, sb.connection.io.wire);
          }
          return Rejected(why);
        case One(pair) =>
          ReadOne(v, pairs, w);
          pairs, w := pairs + [pair], sb.TheView();
      }
    }
  }
}
