/** What an application does with a connection: it reads, writes, and closes. */
module Applications {
  import opened BaseConnection
  import opened Basics
  import opened Connections
  import opened Input
  import opened InputRuns
  import opened Output
  import opened Parameters
  import opened Records
  import opened Sessions
  import opened StreamBuffers
  import opened Transport

  predicate Goes(r: Pull) {
    r.Byte? || r.Eof?
  }

  /**
    * Of the reads `rs` since `v` the last failed: what was written, and whether more content is
    * due than the buffer holds, follows from the header it came to.
    */
  predicate FailedRead(v: View, rs: seq<Pull>, before: seq<byte>, after: seq<byte>, tooMuch: bool) {
    && rs != [] && !Goes(rs[|rs| - 1])
    && var w := After(v, |rs| - 1);
       Answers(w, before, after) && (rs[|rs| - 1].Threw? ==> (tooMuch <==> Overlong(w)))
  }

  /** One more read after `rs`, all since `v`. */
  method TakeNext(c: StackedConnection, ghost v: View, rs: seq<Pull>) returns (rs': seq<Pull>)
    requires c.IsOpen() && c.input.Reading() && Drew(v, rs, c.input.TheView())
    modifies c.input`get, c.input`bufferEnd, c.input`kind, c.input`unreadContent, c.input`unreadPadding
    modifies c.input`endOfStream, c.input`mustDiscard, c.input.buffer, c.base.io
    ensures |rs'| == |rs| + 1 && rs' == Draws(v, |rs'|) && c.IsOpen() && c.TheSession() == old(c.TheSession())
    ensures if Goes(rs'[|rs|]) then
              c.input.Reading() && Drew(v, rs', c.input.TheView()) && c.base.io.wire == old(c.base.io.wire)
            else FailedRead(v, rs', old(c.base.io.wire), c.base.io.wire, c.input.unreadContent > c.input.bufferSize)
  {
    DrewOne(v, rs, c.input.TheView());
    var r := c.Get();
    rs' := rs + [r];
  }

  /** An application: takes up to `n` characters from the input, as long as reads do not fail. */
  method Receive(c: StackedConnection, n: nat) returns (rs: seq<Pull>)
    requires c.IsOpen() && c.input.Reading()
    modifies c.input`get, c.input`bufferEnd, c.input`kind, c.input`unreadContent, c.input`unreadPadding
    modifies c.input`endOfStream, c.input`mustDiscard, c.input.buffer, c.base.io
    ensures |rs| <= n && rs == Draws(old(c.input.TheView()), |rs|)
    ensures c.IsOpen() && c.TheSession() == old(c.TheSession())
    ensures if rs == [] || Goes(rs[|rs| - 1]) then
              && |rs| == n && c.input.Reading() && c.input.TheView() == After(old(c.input.TheView()), n)
              && c.base.io.wire == old(c.base.io.wire)
            else
              FailedRead(old(c.input.TheView()), rs, old(c.base.io.wire), c.base.io.wire,
                c.input.unreadContent > c.input.bufferSize)
  {
    rs := [];
    ghost var v := c.input.TheView();
    while |rs| < n
      invariant c.IsOpen() && c.input.Reading() && c.TheSession() == old(c.TheSession())
      invariant |rs| <= n && Drew(v, rs, c.input.TheView()) && (rs == [] || Goes(rs[|rs| - 1]))
      invariant c.base.io.wire == old(c.base.io.wire)
      decreases n - |rs|
    {
      rs := TakeNext(c, v, rs);
      if !Goes(rs[|rs| - 1]) {
        return;
      }
    }
  }

  // ---------------------------------------------------------------------------
  // Writing and closing
  // ---------------------------------------------------------------------------

  lemma RunOneMore(s: Session, ops: seq<Op>, op: Op, wire: seq<byte>)
    requires s.Valid()
    ensures var o := Run(s, ops); var p := Sessions.Perform(o.session, op);
            && Run(s, ops + [op]).session == p.session
            && wire + Encode(Run(s, ops + [op]).records) == wire + Encode(o.records) + Encode(p.records)
  {
    RunMore(s, ops, op);
    var o := Run(s, ops);
    var p := Sessions.Perform(o.session, op);
    EncodeConcat(o.records, p.records);
    Records.Associate(wire, Encode(o.records), Encode(p.records));
  }

  lemma RunAndClose(s: Session, ops: seq<Op>, status: int, wire: seq<byte>)
    requires s.Valid()
    ensures var o := Run(s, ops);
            wire + Encode(o.records) + Encode(CloseBoth(o.session, status)) == wire + Encode(WholeWire(s, ops, status))
  {
    var o := Run(s, ops);
    EncodeConcat(o.records, CloseBoth(o.session, status));
    Records.Associate(wire, Encode(o.records), Encode(CloseBoth(o.session, status)));
  }

  /** `ops` have been performed on an open connection since `s` and `wire`. */
  ghost predicate Performed(c: StackedConnection, s: Session, wire: seq<byte>, ops: seq<Op>)
    requires s.Valid()
    reads c.input, c.output, c.error, c.input.buffer, c.output.buffer, c.error.buffer, c.base.io
  {
    && c.IsOpen() && c.TheSession() == Run(s, ops).session
    && c.base.io.wire == wire + Encode(Run(s, ops).records)
  }

  /** The output streams have their old buffers or new ones of their own. */
  twostate predicate OwnBuffers(c: StackedConnection)
    reads c.output, c.error
  {
    && (c.output.buffer == old(c.output.buffer) || fresh(c.output.buffer))
    && (c.error.buffer == old(c.error.buffer) || fresh(c.error.buffer))
  }

  /** One more operation. */
  method PerformNext(c: StackedConnection, op: Op, ghost s: Session, ghost wire: seq<byte>, ghost ops: seq<Op>)
    requires s.Valid() && Performed(c, s, wire, ops)
    modifies c.output, c.error, c.output.buffer, c.error.buffer, c.base.io
    ensures OwnBuffers(c) && Performed(c, s, wire, ops + [op])
  {
    RunOneMore(s, ops, op, wire);
    c.Perform(op);
  }

  /** The operations of an application on the output streams, one after the other. */
  method PerformAll(c: StackedConnection, ops: seq<Op>)
    requires c.IsOpen()
    modifies c.output, c.error, c.output.buffer, c.error.buffer, c.base.io
    ensures OwnBuffers(c) && Performed(c, old(c.TheSession()), old(c.base.io.wire), ops)
  {
    assert c.base.io.wire + [] == c.base.io.wire;
    PerformFrom(c, ops, c.TheSession(), c.base.io.wire);
  }

  method PerformAt(c: StackedConnection, ops: seq<Op>, i: nat, ghost s: Session, ghost wire: seq<byte>)
    requires i < |ops| && s.Valid() && Performed(c, s, wire, ops[..i])
    modifies c.output, c.error, c.output.buffer, c.error.buffer, c.base.io
    ensures OwnBuffers(c) && Performed(c, s, wire, ops[..i + 1])
  {
    assert ops[..i + 1] == ops[..i] + [ops[i]];
    PerformNext(c, ops[i], s, wire, ops[..i]);
  }

  method PerformFrom(c: StackedConnection, ops: seq<Op>, ghost s: Session, ghost wire: seq<byte>)
    requires s.Valid() && Performed(c, s, wire, [])
    modifies c.output, c.error, c.output.buffer, c.error.buffer, c.base.io
    ensures OwnBuffers(c) && Performed(c, s, wire, ops)
  {
    assert ops[..0] == [];
    var i := 0;
    while i < |ops|
      invariant i <= |ops| && OwnBuffers(c) && Performed(c, s, wire, ops[..i])
    {
      PerformAt(c, ops, i, s, wire);
      i := i + 1;
    }
    assert ops[..i] == ops;
  }

  /**
    * Operations, then a flush of one stream: then all that the stream keeps is on the descriptor,
    * as the contents of the records of that stream among those sent.
    */
  method PerformAndFlush(c: StackedConnection, ops: seq<Op>, to: Channel) returns (ghost sent: seq<Record>)
    requires c.IsOpen()
    modifies c.output, c.error, c.output.buffer, c.error.buffer, c.base.io
    ensures c.IsOpen() && c.base.io.wire == old(c.base.io.wire) + Encode(sent)
    ensures c.TheSession().WriterOf(to).held == []
    ensures Contents(Only(sent, to.Kind())) == Kept(old(c.TheSession()), ops, to)
  {
    ghost var s := c.TheSession();
    FlushSends(s, ops, to);
    PerformAll(c, ops + [Flush(to)]);
    sent := Run(s, ops + [Flush(to)]).records;
  }

  /** An application: its operations on the output streams, then the close. */
  method Serve(c: StackedConnection, ops: seq<Op>) returns (r: Closing)
    requires c.IsOpen() && MayClose(c.base.role, c.input.kind, c.input.unreadContent)
    modifies c.input, c.output, c.error, c.input.buffer, c.output.buffer, c.error.buffer, c.base.io
    ensures c.IsClosed() && r == if old(c.input.unreadContent) <= old(c.input.bufferSize) then Done else Failed
    ensures c.base.io.wire
         == old(c.base.io.wire) + Encode(WholeWire(old(c.TheSession()), ops, old(c.base.applicationStatus)))
  {
    RunAndClose(c.TheSession(), ops, c.base.applicationStatus, c.base.io.wire);
    PerformAll(c, ops);
    r := c.Close();
  }

  /** Accepts a request and answers it without reading: there the close succeeds for every role. */
  method Answer(io: Descriptor, ops: seq<Op>) returns (r: Acceptance, closing: Closing)
    modifies io
    ensures r.Connected? ==>
              && |old(io.incoming)| >= 16 && r.connection.IsClosed() && closing.Done?
              && var s := Start(HeaderOf(old(io.incoming)[..8]).RequestId(), OUT_BUFFER_SIZE);
                 s.Valid() && io.wire == old(io.wire) + Encode(WholeWire(s, ops, 0))
    ensures !r.Connected? ==> closing.Refused? && AcceptedAs(r, io, old(io.incoming), old(io.history), old(io.wire))
  {
    r := Accept(io);
    closing := Refused;
    if r.Connected? {
      closing := Serve(r.connection, ops);
    }
  }

  // ---------------------------------------------------------------------------
  // A refused close and what may follow it
  // ---------------------------------------------------------------------------

  /** Takes characters until the first that is not there. */
  method ReadToEnd(c: StackedConnection) returns (last: Pull)
    requires c.IsOpen() && c.input.Reading()
    modifies c.input`get, c.input`bufferEnd, c.input`kind, c.input`unreadContent, c.input`unreadPadding
    modifies c.input`endOfStream, c.input`mustDiscard, c.input.buffer, c.base.io
    ensures c.IsOpen() && c.TheSession() == old(c.TheSession())
    ensures last == Draw(Drained(old(c.input.TheView()))).0 && !last.Byte?
    ensures last.Eof? ==>
              && c.input.Reading() && c.input.TheView() == Draw(Drained(old(c.input.TheView()))).1
              && c.base.io.wire == old(c.base.io.wire)
  {
    ghost var v, w := c.input.TheView(), c.input.TheView();
    while true
      invariant c.IsOpen() && c.input.Reading() && c.TheSession() == old(c.TheSession())
      invariant c.input.TheView() == w && Drained(w) == Drained(v) && c.base.io.wire == old(c.base.io.wire)
      decreases |w.tail.content|
    {
      last := c.Get();
      if !last.Byte? {
        DrawNothing(w);
        NothingToDrain(w);
        return;
      }
      DrawIsSkip(w);
      SkipTwice(w, 1, |w.tail.content| - 1);
      w := c.input.TheView();
    }
  }

  /**
    * Closes; after a refusal reads its input to the end and tries again. If the stream comes to
    * its end the second close succeeds, and what has been sent is what a first success sends.
    */
  method CloseOrReadOn(c: StackedConnection) returns (r: Closing)
    requires c.IsOpen() && c.input.Reading()
    modifies c.input, c.output, c.error, c.input.buffer, c.output.buffer, c.error.buffer, c.base.io
    ensures !r.Failed? && (MayClose(c.base.role, old(c.input.kind), old(c.input.unreadContent)) ==> r.Done?)
    ensures r.Done? ==>
              && c.IsClosed()
              && c.base.io.wire == old(c.base.io.wire)
                + Encode(CloseBoth(old(c.TheSession()), old(c.base.applicationStatus)))
    ensures r.Refused? ==> c.IsOpen() && c.TheSession() == old(c.TheSession())
    ensures r.Refused? ==> c.base.role.Filter? && !Draw(Drained(old(c.input.TheView()))).0.Eof?
  {
    r := c.Close();
    if r.Refused? {
      var last := ReadToEnd(c);
      if last.Eof? {
        r := c.Close();
      }
    }
  }

  /** What a read of `v` that fails makes its reader write. */
  function RepliesOf(v: View): seq<Record> {
    Replies(v.src, v.tail.ending, v.tail.rest)
  }

  /** Appending to a wire. */
  lemma Appended(wire: seq<byte>, a: seq<Record>, b: seq<Record>)
    ensures wire + Encode(a) + Encode(b) == wire + Encode(a + b)
  {
    EncodeConcat(a, b);
    Records.Associate(wire, Encode(a), Encode(b));
  }

  /**
    * Takes one character, then closes the connection if the call returned or threw. The process
    * ends in the close exactly behind an overlong record of the wrong type, except that a Filter
    * on its standard input is refused there. What a failed read has written stays in front of
    * the closing records.
    */
  method GetAndClose(c: StackedConnection) returns (r: Pull, q: Option<Closing>)
    requires c.IsOpen() && c.input.Reading()
    modifies c.input, c.output, c.error, c.input.buffer, c.output.buffer, c.error.buffer, c.base.io
    ensures r == Draw(old(c.input.TheView())).0
    ensures q.Some? <==> Goes(r) || r.Threw?
    ensures q.Some? && Overlong(old(c.input.TheView())) ==>
              q.value == if c.base.role.Filter? && old(c.input.kind).In? then Refused else Failed
    ensures q.Some? && !Overlong(old(c.input.TheView())) ==> !q.value.Failed?
    ensures q == Some(Refused) ==> !MayClose(c.base.role, c.input.kind, c.input.unreadContent)
    ensures q.Some? && !q.value.Refused? ==>
              var replies := if Goes(r) then [] else RepliesOf(old(c.input.TheView()));
              c.base.io.wire == old(c.base.io.wire)
                                + Encode(replies + CloseBoth(old(c.TheSession()), old(c.base.applicationStatus)))
  {
    ghost var v, wire := c.input.TheView(), c.base.io.wire;
    assert wire + [] == wire;
    r := c.Get();
    assert Overlong(v) ==> r.Threw?;
    q := None;
    if Goes(r) || r.Threw? {
      var closing := CloseBehind(c, wire, if Goes(r) then [] else RepliesOf(v));
      q := Some(closing);
    }
  }

  /** Closes a connection on which `sent` has been sent since `wire`. */
  method CloseBehind(c: StackedConnection, ghost wire: seq<byte>, ghost sent: seq<Record>) returns (q: Closing)
    requires c.IsOpen() && c.base.io.wire == wire + Encode(sent)
    modifies c.input, c.output, c.error, c.input.buffer, c.output.buffer, c.error.buffer, c.base.io
    ensures q.Refused? <==> !MayClose(c.base.role, old(c.input.kind), old(c.input.unreadContent))
    ensures q.Refused? ==> !MayClose(c.base.role, c.input.kind, c.input.unreadContent)
    ensures q.Failed? ==> old(c.input.unreadContent) > old(c.input.bufferSize)
    ensures q.Done? ==> old(c.input.unreadContent) <= old(c.input.bufferSize)
    ensures !q.Refused? ==>
              c.base.io.wire == wire + Encode(sent + CloseBoth(old(c.TheSession()), c.base.applicationStatus))
  {
    Appended(wire, sent, CloseBoth(c.TheSession(), c.base.applicationStatus));
    q := c.Close();
  }
}
