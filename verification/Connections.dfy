/**
  * stack_buffers_Server_connection of src/fcgi/server_connection_stacked.cpp with the streams of
  * src/fcgi/streams.cpp, and Listener::accept of src/fcgi/listener.cpp.
  */
module Connections {
  import opened BaseConnection
  import opened Basics
  import opened Input
  import opened NamesValues
  import opened Output
  import opened Parameters
  import opened Records
  import opened Sessions
  import opened StreamBuffers
  import opened Transport

  const IN_BUFFER_SIZE: nat := 16384
  const OUT_BUFFER_SIZE: nat := 65528
  const ERR_BUFFER_SIZE: nat := 65528

  /** Opening ends in a connection or, in the middle of its parameters, in a failure of some kind. */
  datatype Opening = Opened(connection: StackedConnection) | ParametersFailed(why: Pull)

  /**
    * Accepting ends in a connection, or in an exception: behind a rejection sent to the peer,
    * before that, or while the parameters are read, where `why` may be worse than an exception.
    */
  datatype Acceptance =
    | Connected(connection: StackedConnection)
    | Denied(status: ProtocolStatus)
    | NoHeader
    | NoBody
    | NoParameters(why: Pull)

  /** The stream of parameters, before anything of it has been read. */
  function ParamsView(role: Role, id: nat, s: seq<byte>): View {
    Open(Source(Params, id, IN_BUFFER_SIZE), role, s)
  }

  /** What the input stream shows once the parameters have been read. */
  function InputView(role: Role, id: nat, s: seq<byte>): View {
    var rest := ParamsView(role, id, s).tail.rest;
    if role.Authorizer? then View(Source(Params, id, IN_BUFFER_SIZE), role, true, Finished(rest))
    else Open(Source(In, id, IN_BUFFER_SIZE), role, rest)
  }

  /** Reads the parameters, then readies the stream for the role: the constructor of server_Istream. */
  method OpenInput(base: ServerConnection, input: Streambuf) returns (failure: Option<Pull>)
    requires input.connection == base && input.Reading() && input.Fresh() && input.kind.Params?
    requires input.bufferSize == IN_BUFFER_SIZE
    modifies base`parameters
    modifies input`get, input`bufferEnd, input`kind, input`unreadContent, input`unreadPadding
    modifies input`endOfStream, input`mustDiscard
    modifies input.buffer, base.io
    ensures old(base.io.history) <= base.io.history
    ensures failure.None? <==> Sound(ParamsView(base.role, base.requestId, old(base.io.incoming)))
    ensures failure.Some? ==>
              var v := ParamsView(base.role, base.requestId, old(base.io.incoming));
              failure.value == Failure(v) && FailureAnswers(v, old(base.io.wire), base.io.wire)
    ensures failure.None? ==>
              && input.Reading() && input.unreadContent == 0 && base.io.wire == old(base.io.wire)
              && Ok(base.parameters) == Parse(ParamsView(base.role, base.requestId, old(base.io.incoming)).tail.content)
              && input.TheView() == InputView(base.role, base.requestId, old(base.io.incoming))
  {
    ghost var v := input.TheView();
    assert input.Pending() == base.io.incoming;
    assert v == ParamsView(base.role, base.requestId, base.io.incoming);
    var read := ReadPairs(input);
    if !(read.AllPairs? && read.last.Eof?) {
      return Some(AsFailure(if read.AllPairs? then read.last else read.why));
    }
    base.parameters := read.pairs;
    DrawStuck(Drained(v));
    if base.role.Responder? || base.role.Filter? {
      TurnToInput(input);
    }
    failure := None;
  }

  /** Behind the end of the parameters the stream goes on with standard input. */
  method TurnToInput(input: Streambuf)
    requires input.Reading() && input.endOfStream && !input.connection.role.Authorizer?
    modifies input`kind, input`endOfStream, input`mustDiscard, input`unreadContent, input`unreadPadding
    ensures input.Reading() && input.unreadContent == 0 && input.kind.In?
    ensures var v := old(input.TheView());
            input.TheView() == Open(v.src.(kind := In), v.role, v.tail.rest)
  {
    input.ResetReader(In);
  }

  /** One operation of the application on an output stream. A new buffer is the stream's own. */
  method PerformOn(sb: Streambuf, op: Op)
    requires sb.Writing()
    modifies sb`put, sb`consumedOnce, sb`mustSendEnd, sb`endOfStream, sb.buffer, sb.connection.io
    modifies sb`buffer, sb`bufferSize, sb`bufferEnd, sb`get
    ensures sb.Writing() && sb.connection.io.incoming == old(sb.connection.io.incoming)
    ensures sb.buffer == old(sb.buffer) || fresh(sb.buffer)
    ensures sb.bufferSize == if op.Replace? then Usable(op.size) else old(sb.bufferSize)
    ensures var step := StepOn(old(sb.TheLane()), old(sb.TheWriter()), op);
            sb.TheWriter() == step.writer && sb.connection.io.wire == old(sb.connection.io.wire) + Encode(step.records)
  {
    match op {
      case Put(_, b) => var ok := sb.Sputc(b);
      case Write(_, bs) => sb.Xsputn(bs);
      case Flush(_) => var r := sb.Sync();
      case Replace(_, size) =>
        var buffer := new byte[size];
        var r := sb.Setbuf(buffer, size);
        assert sb.connection.io.wire + [] == sb.connection.io.wire;
    }
  }

  /** Closing an open writer. */
  method CloseWriter(sb: Streambuf, input: Streambuf) returns (r: Closing)
    requires sb.Writing() && input.IsReader() && !input.IsClosed()
    requires sb.connection.role.Authorizer? || !input.kind.Params?
    modifies sb`get, sb`put, sb`consumedOnce, sb`mustSendEnd, sb`endOfStream, sb.buffer, sb.connection.io
    ensures sb.connection.io.incoming == old(sb.connection.io.incoming)
    ensures if MayClose(sb.connection.role, input.kind, input.unreadContent) then
              && r.Done? && sb.IsClosed()
              && sb.connection.io.wire == old(sb.connection.io.wire)
                   + Encode(ClosingRecords(old(sb.TheLane()), old(sb.TheWriter()), sb.connection.applicationStatus))
            else
              && r.Refused? && sb.Writing() && sb.TheWriter() == old(sb.TheWriter())
              && sb.connection.io.wire == old(sb.connection.io.wire)
  {
    r := sb.Close(input);
  }

  /** Closing an open reader. */
  method CloseReader(sb: Streambuf) returns (r: Closing)
    requires sb.Settled()
    modifies sb`get, sb`put, sb`consumedOnce, sb`mustSendEnd, sb`endOfStream, sb.buffer, sb.connection.io
    ensures sb.connection.io.wire == old(sb.connection.io.wire) && sb.IsClosed()
    ensures r == if sb.unreadContent <= sb.bufferSize then Done else Failed
  {
    r := sb.Close(sb);
  }

  /** Closing a closed stream again. */
  method CloseAgain(sb: Streambuf, input: Streambuf) returns (r: Closing)
    requires sb.IsClosed()
    modifies sb`get, sb`put, sb`consumedOnce, sb`mustSendEnd, sb`endOfStream, sb.buffer, sb.connection.io
    ensures sb.connection.io.wire == old(sb.connection.io.wire) && sb.IsClosed() && r.Done?
  {
    r := sb.Close(input);
  }

  /**
    * Takes a character from a stream, then closes it if the call returned or threw. The
    * assertion of the close fails exactly behind a record of the wrong type whose content is
    * longer than the buffer.
    */
  method ReadAndClose(sb: Streambuf) returns (r: Pull, q: Option<Closing>)
    requires sb.Reading()
    modifies sb`get, sb`bufferEnd, sb`kind, sb`unreadContent, sb`unreadPadding, sb`endOfStream, sb`mustDiscard
    modifies sb`put, sb`consumedOnce, sb`mustSendEnd, sb.buffer, sb.connection.io
    ensures r == Draw(old(sb.TheView())).0
    ensures q.Some? <==> r.Byte? || r.Eof? || r.Threw?
    ensures q.Some? ==> sb.IsClosed() && q.value == if Overlong(old(sb.TheView())) then Failed else Done
  {
    ghost var v := sb.TheView();
    r := sb.Sbumpc();
    if !(r.Byte? || r.Eof? || r.Threw?) {
      return r, None;
    }
    assert Overlong(v) ==> r.Threw?;
    var closing := CloseReader(sb);
    q := Some(closing);
  }

  class StackedConnection {
    const base: ServerConnection
    const input: Streambuf
    const output: Streambuf
    const error: Streambuf

    constructor (base: ServerConnection, input: Streambuf, output: Streambuf, error: Streambuf)
      ensures this.base == base && this.input == input && this.output == output && this.error == error
    {
      this.base, this.input, this.output, this.error := base, input, output, error;
    }

    /** Three stream buffers over one descriptor, each with a buffer of its own. */
    predicate Wired()
      reads input, output, error
    {
      && input.connection == base && output.connection == base && error.connection == base
      && input.IsReader() && output.kind.Out? && error.kind.Err?
      && input.buffer != output.buffer && output.buffer != error.buffer && error.buffer != input.buffer
    }

    predicate IsClosed()
      reads input, output, error
    {
      error.IsClosed() && output.IsClosed() && input.IsClosed()
    }

    predicate IsOpen()
      reads input, output, error
    {
      && Wired() && input.Settled() && output.Writing() && error.Writing()
      && (base.role.Authorizer? || !input.kind.Params?)
    }

    /** Between two calls a connection is open, or closed for good. */
    predicate Valid()
      reads input, output, error
    {
      IsOpen() || (Wired() && IsClosed())
    }

    /** What the two writers hold and have sent. */
    ghost function TheSession(): (s: Session)
      requires IsOpen()
      reads input, output, error, output.buffer, error.buffer
      ensures s.Valid() && s.LaneOf(Stdout) == output.TheLane() && s.LaneOf(Stderr) == error.TheLane()
    {
      Session(base.requestId, output.TheWriter(), error.TheWriter(), output.bufferSize, error.bufferSize)
    }

    /** One operation of the application on one of the two output streams. */
    method Perform(op: Op)
      requires IsOpen()
      modifies output`put, output`consumedOnce, output`mustSendEnd, output`endOfStream, output.buffer
      modifies output`buffer, output`bufferSize, output`bufferEnd, output`get
      modifies error`put, error`consumedOnce, error`mustSendEnd, error`endOfStream, error.buffer
      modifies error`buffer, error`bufferSize, error`bufferEnd, error`get
      modifies base.io
      ensures IsOpen()
      ensures output.buffer == old(output.buffer) || fresh(output.buffer)
      ensures error.buffer == old(error.buffer) || fresh(error.buffer)
      ensures var o := Sessions.Perform(old(TheSession()), op);
              TheSession() == o.session && base.io.wire == old(base.io.wire) + Encode(o.records)
      ensures input.State() == old(input.State())
    {
      if op.to.Stdout? {
        PerformOn(output, op);
      } else {
        PerformOn(error, op);
      }
    }

    /** Takes one character from the input stream. */
    method Get() returns (r: Pull)
      requires IsOpen() && input.Reading()
      modifies input`get, input`bufferEnd, input`kind, input`unreadContent, input`unreadPadding
      modifies input`endOfStream, input`mustDiscard
      modifies input.buffer, base.io
      ensures IsOpen() && TheSession() == old(TheSession()) && r == Draw(old(input.TheView())).0
      ensures r.Byte? || r.Eof? ==>
                input.Reading() && input.TheView() == Draw(old(input.TheView())).1 && base.io.wire == old(base.io.wire)
      ensures r.Byte? || r.Threw? ==> input.kind == old(input.kind)
      ensures !r.Byte? ==> Answers(old(input.TheView()), old(base.io.wire), base.io.wire)
      ensures r.Threw? ==> (input.unreadContent > input.bufferSize <==> Overlong(old(input.TheView())))
    {
      r := input.Sbumpc();
    }

    /** Closes the two output streams, unless the first of them refuses. */
    method CloseOutputs() returns (r: Closing)
      requires IsOpen()
      modifies output`get, output`put, output`consumedOnce, output`mustSendEnd, output`endOfStream, output.buffer
      modifies error`get, error`put, error`consumedOnce, error`mustSendEnd, error`endOfStream, error.buffer, base.io
      ensures base.io.incoming == old(base.io.incoming) && Wired()
      ensures if MayClose(base.role, input.kind, input.unreadContent) then
                && r.Done? && error.IsClosed() && output.IsClosed()
                && base.io.wire == old(base.io.wire) + Encode(CloseBoth(old(TheSession()), base.applicationStatus))
              else r.Refused? && IsOpen() && TheSession() == old(TheSession()) && base.io.wire == old(base.io.wire)
    {
      TwoClosings(TheSession(), base.applicationStatus, base.io.wire);
      r := CloseError();
      if r.Done? {
        r := CloseWriter(output, input);
      }
    }

    /** Closes the first of the two. */
    method CloseError() returns (r: Closing)
      requires IsOpen()
      modifies error`get, error`put, error`consumedOnce, error`mustSendEnd, error`endOfStream, error.buffer, base.io
      ensures base.io.incoming == old(base.io.incoming) && output.Writing()
      ensures output.TheWriter() == old(output.TheWriter()) && output.TheLane() == old(output.TheLane())
      ensures var s := old(TheSession());
              if MayClose(base.role, input.kind, input.unreadContent) then
                && r.Done? && error.IsClosed()
                && base.io.wire == old(base.io.wire)
                  + Encode(ClosingRecords(s.LaneOf(Stderr), s.err, base.applicationStatus))
              else r.Refused? && IsOpen() && TheSession() == s && base.io.wire == old(base.io.wire)
    {
      r := CloseWriter(error, input);
    }

    /** Closes err, then out, then in: the order matters. */
    method Close() returns (r: Closing)
      requires Valid()
      modifies input, output, error, input.buffer, output.buffer, error.buffer, base.io
      ensures old(IsClosed()) ==> r.Done? && IsClosed() && base.io.wire == old(base.io.wire)
      ensures !old(IsClosed()) ==>
                if MayClose(base.role, old(input.kind), old(input.unreadContent)) then
                  && IsClosed() && r == (if old(input.unreadContent) <= old(input.bufferSize) then Done else Failed)
                  && base.io.wire == old(base.io.wire)
                    + Encode(CloseBoth(old(TheSession()), old(base.applicationStatus)))
                else
                  && r.Refused? && IsOpen() && TheSession() == old(TheSession())
                  && base.io.wire == old(base.io.wire) && input.State() == old(input.State())
      ensures r.Refused? ==> base.role.Filter? && (old(input.Reading()) ==> input.Reading())
      ensures input.buffer == old(input.buffer) && output.buffer == old(output.buffer)
                && error.buffer == old(error.buffer)
    {
      if !error.IsClosed() {
        r := CloseOutputs();
        if r.Done? {
          r := CloseReader(input);
        }
      } else {
        r := CloseAllAgain();
      }
    }

    /** On a closed connection nothing happens any more. */
    method CloseAllAgain() returns (r: Closing)
      requires Wired() && IsClosed()
      modifies input, output, error, input.buffer, output.buffer, error.buffer, base.io
      ensures r.Done? && IsClosed() && base.io.wire == old(base.io.wire)
      ensures input.buffer == old(input.buffer) && output.buffer == old(output.buffer)
                && error.buffer == old(error.buffer)
    {
      r := CloseAgain(error, input);
      r := CloseAgain(output, input);
      r := CloseAgain(input, input);
    }
  }

  lemma TwoClosings(s: Session, status: int, wire: seq<byte>)
    requires s.Valid()
    ensures wire + Encode(ClosingRecords(s.LaneOf(Stderr), s.err, status))
              + Encode(ClosingRecords(s.LaneOf(Stdout), s.out, status))
            == wire + Encode(CloseBoth(s, status))
  {
    var a, b := ClosingRecords(s.LaneOf(Stderr), s.err, status), ClosingRecords(s.LaneOf(Stdout), s.out, status);
    EncodeConcat(a, b);
    Records.Associate(wire, Encode(a), Encode(b));
  }

  // ---------------------------------------------------------------------------
  // Accepting a connection
  // ---------------------------------------------------------------------------

  /** A header that is valid and of a request that begins, and a body that names a role. */
  predicate Begins(s: seq<byte>) {
    && |s| >= 16 && HeaderOf(s[..8]).IsValid() && IsBegin(HeaderOf(s[..8]))
    && BeginRequestBodyOf(s[8..16]).Role().Some?
  }

  /** The parameters behind such a beginning, before anything of them has been read. */
  function ParamsBehind(s: seq<byte>): View
    requires Begins(s)
  {
    ParamsView(BeginRequestBodyOf(s[8..16]).Role().value, HeaderOf(s[..8]).RequestId(), s[16..])
  }

  /** The first reads after `before` were two of 8 bytes that got them. */
  predicate TwoWholeReads(before: seq<(nat, nat)>, after: seq<(nat, nat)>) {
    before <= after && |after| >= |before| + 2 && after[|before|] == after[|before| + 1] == (8, 8)
  }

  predicate IsBegin(h: Header) {
    h.recordType == BEGIN_REQUEST && !h.IsManagement() && h.ContentLength() == 8
  }

  /** All objects of a connection but its descriptor are new. */
  twostate predicate AllNew(new c: StackedConnection)
    reads c.input, c.output, c.error
  {
    && fresh(c) && fresh(c.base) && fresh(c.input) && fresh(c.output) && fresh(c.error)
    && fresh(c.input.buffer) && fresh(c.output.buffer) && fresh(c.error.buffer)
  }

  /** A connection on which nothing has been sent, ready for the application. */
  ghost predicate Ready(c: StackedConnection, io: Descriptor, role: Role, id: nat, s: seq<byte>)
    reads c.input, c.output, c.error, c.input.buffer, c.output.buffer, c.error.buffer, c.base, io
  {
    && c.base.io == io && c.base.role == role && c.base.requestId == id && c.base.applicationStatus == 0
    && c.input.bufferSize == IN_BUFFER_SIZE
    && c.IsOpen() && c.input.Reading() && c.input.unreadContent == 0 && c.TheSession() == Start(id, OUT_BUFFER_SIZE)
    && Ok(c.base.parameters) == Parse(ParamsView(role, id, s).tail.content)
    && c.input.TheView() == InputView(role, id, s)
  }

  /** A server_Ostream with a buffer of its own. */
  method NewOutput(base: ServerConnection, size: nat, kind: StreamType) returns (sb: Streambuf)
    requires 2048 <= size <= 65528 && size % 8 == 0 && (kind.Out? || kind.Err?) && 0 < base.requestId <= MAX_ID
    ensures fresh(sb) && fresh(sb.buffer) && sb.connection == base && sb.kind == kind && sb.bufferSize == size
    ensures sb.Writing() && sb.TheWriter() == Idle
  {
    var buffer := new byte[size];
    sb := new Streambuf(base, buffer, size, kind);
  }

  /** A server_Istream: its stream buffer, with the parameters read. */
  method NewInput(base: ServerConnection) returns (failure: Option<Pull>, sb: Streambuf)
    requires 0 < base.requestId <= MAX_ID
    modifies base`parameters, base.io
    ensures fresh(sb) && fresh(sb.buffer) && sb.connection == base
    ensures old(base.io.history) <= base.io.history
    ensures failure.None? <==> Sound(ParamsView(base.role, base.requestId, old(base.io.incoming)))
    ensures failure.Some? ==>
              var v := ParamsView(base.role, base.requestId, old(base.io.incoming));
              failure.value == Failure(v) && FailureAnswers(v, old(base.io.wire), base.io.wire)
    ensures failure.None? ==>
              && sb.Reading() && sb.unreadContent == 0 && sb.bufferSize == IN_BUFFER_SIZE
              && base.io.wire == old(base.io.wire)
              && (base.role.Authorizer? || !sb.kind.Params?)
              && Ok(base.parameters) == Parse(ParamsView(base.role, base.requestId, old(base.io.incoming)).tail.content)
              && sb.TheView() == InputView(base.role, base.requestId, old(base.io.incoming))
  {
    var buffer := new byte[IN_BUFFER_SIZE];
    sb := new Streambuf(base, buffer, IN_BUFFER_SIZE, Params);
    failure := OpenInput(base, sb);
  }

  /** Two output streams, and with the input stream a connection. */
  method Join(base: ServerConnection, input: Streambuf, ghost s: seq<byte>) returns (c: StackedConnection)
    requires input.connection == base && base.applicationStatus == 0
    requires input.Reading() && (base.role.Authorizer? || !input.kind.Params?) && input.bufferSize == IN_BUFFER_SIZE
    requires input.unreadContent == 0 && input.TheView() == InputView(base.role, base.requestId, s)
    requires Ok(base.parameters) == Parse(ParamsView(base.role, base.requestId, s).tail.content)
    ensures fresh(c) && c.base == base && c.input == input && fresh(c.output) && fresh(c.error)
    ensures fresh(c.output.buffer) && fresh(c.error.buffer)
    ensures Ready(c, base.io, base.role, base.requestId, s)
  {
    var output := NewOutput(base, OUT_BUFFER_SIZE, StreamType.Out);
    var error := NewOutput(base, ERR_BUFFER_SIZE, StreamType.Err);
    c := new StackedConnection(base, input, output, error);
  }

  /** Builds the connection and reads its parameters. */
  method Establish(io: Descriptor, role: Role, id: nat, keep: bool) returns (r: Opening)
    requires 0 < id <= MAX_ID
    modifies io
    ensures old(io.history) <= io.history
    ensures r.Opened? <==> Sound(ParamsView(role, id, old(io.incoming)))
    ensures r.ParametersFailed? ==>
              var v := ParamsView(role, id, old(io.incoming));
              r.why == Failure(v) && FailureAnswers(v, old(io.wire), io.wire)
    ensures r.Opened? ==>
              && AllNew(r.connection) && Ready(r.connection, io, role, id, old(io.incoming))
              && r.connection.base.isKeepConnection == keep && io.wire == old(io.wire)
  {
    var base := new ServerConnection(io, role, id, keep);
    var failure, input := NewInput(base);
    if failure.Some? {
      return ParametersFailed(failure.value);
    }
    var c := Join(base, input, old(io.incoming));
    r := Opened(c);
  }

  /** Reads a structure of 8 bytes, in one read that must get them all. */
  method ReadEight(io: Descriptor) returns (r: Option<seq<byte>>)
    modifies io
    ensures io.wire == old(io.wire)
    ensures r.None? ==> exists n :: 0 <= n < 8 && io.history == old(io.history) + [(8, n)]
    ensures r.Some? ==>
              && |old(io.incoming)| >= 8 && r.value == old(io.incoming)[..8] && io.incoming == old(io.incoming)[8..]
              && io.history == old(io.history) + [(8, 8)]
  {
    var bytes := new byte[8];
    var count := io.Read(bytes, 8);
    if count != 8 {
      return None;
    }
    assert bytes[..] == bytes[..8];
    r := Some(bytes[..]);
  }

  /** What accepting comes to on a descriptor with `s` to come, since `history` and `wire`. */
  ghost predicate AcceptedAs(r: Acceptance, io: Descriptor, s: seq<byte>, history: seq<(nat, nat)>, wire: seq<byte>)
    reads io
    reads if r.Connected? then {r.connection.base, r.connection.input, r.connection.output, r.connection.error} else {}
    reads if r.Connected? then {r.connection.input.buffer, r.connection.output.buffer, r.connection.error.buffer}
      else {}
  {
    match r
    case Connected(c) =>
      && Begins(s) && Sound(ParamsBehind(s)) && io.wire == wire && TwoWholeReads(history, io.history)
      && var h, body := HeaderOf(s[..8]), BeginRequestBodyOf(s[8..16]);
      && c.base.isKeepConnection == body.IsKeepConn() && Ready(c, io, body.Role().value, h.RequestId(), s[16..])
    case NoParameters(why) =>
      && Begins(s) && !Sound(ParamsBehind(s)) && why == Failure(ParamsBehind(s))
      && FailureAnswers(ParamsBehind(s), wire, io.wire) && TwoWholeReads(history, io.history)
    case Denied(status) =>
      && |s| >= 8 && HeaderOf(s[..8]).IsValid()
      && io.wire == wire + EndBytes(HeaderOf(s[..8]).RequestId(), 0, if IsBegin(HeaderOf(s[..8])) then 3 else 1)
      && if !IsBegin(HeaderOf(s[..8])) then status.CantMpxConn? && io.history == history + [(8, 8)]
         else
           && status.UnknownRole? && |s| >= 16 && BeginRequestBodyOf(s[8..16]).Role().None?
           && io.history == history + [(8, 8), (8, 8)]
    case NoHeader =>
      && io.wire == wire
      && exists n :: 0 <= n <= 8 && io.history == history + [(8, n)]
                     && (n == 8 ==> |s| >= 8 && !HeaderOf(s[..8]).IsValid())
    case NoBody =>
      && io.wire == wire && |s| >= 8 && HeaderOf(s[..8]).IsValid() && IsBegin(HeaderOf(s[..8]))
      && exists n :: 0 <= n < 8 && io.history == history + [(8, 8), (8, n)]
  }

  /** The part of accept behind a BEGIN_REQUEST that has come whole. */
  method AcceptRole(io: Descriptor, header: Header, body: BeginRequestBody, ghost s: seq<byte>,
      ghost history: seq<(nat, nat)>)
    returns (r: Acceptance)
    requires |s| >= 16 && header == HeaderOf(s[..8]) && header.IsValid() && IsBegin(header)
    requires body == BeginRequestBodyOf(s[8..16])
    requires io.incoming == s[16..] && io.history == history + [(8, 8), (8, 8)]
    modifies io
    ensures AcceptedAs(r, io, s, history, old(io.wire)) && (r.Connected? ==> AllNew(r.connection))
  {
    match body.Role() {
      case None =>
        EndRequestBytes(header.RequestId(), 0, UnknownRole);
        io.WriteBytes(EndRequest(header.RequestId(), 0, UnknownRole).Bytes());
        r := Denied(UnknownRole);
      case Some(role) =>
        var opening := Establish(io, role, header.RequestId(), body.IsKeepConn());
        match opening {
          case Opened(c) => r := Connected(c);
          case ParametersFailed(why) => r := NoParameters(why);
        }
    }
  }

  /** The part of accept behind the header of a BEGIN_REQUEST. */
  method AcceptBody(io: Descriptor, header: Header, ghost s: seq<byte>, ghost history: seq<(nat, nat)>)
    returns (r: Acceptance)
    requires |s| >= 8 && header == HeaderOf(s[..8]) && header.IsValid() && IsBegin(header)
    requires io.incoming == s[8..] && io.history == history + [(8, 8)]
    modifies io
    ensures AcceptedAs(r, io, s, history, old(io.wire)) && (r.Connected? ==> AllNew(r.connection))
  {
    var tail := ReadEight(io);
    if tail.None? {
      return NoBody;
    }
    assert s[8..][..8] == s[8..16] && s[8..][8..] == s[16..];
    assert io.history == history + [(8, 8), (8, 8)];
    r := AcceptRole(io, header, BeginRequestBodyOf(tail.value), s, history);
  }

  /**
    * Listener::accept on a connected descriptor. Every outcome but a short read is determined by
    * the bytes: if both reads of 8 bytes get them, a request that begins with a known role is
    * accepted exactly if its parameters are sound.
    */
  method Accept(io: Descriptor) returns (r: Acceptance)
    modifies io
    ensures AcceptedAs(r, io, old(io.incoming), old(io.history), old(io.wire))
    ensures r.Connected? ==> AllNew(r.connection)
  {
    ghost var s := io.incoming;
    var head := ReadEight(io);
    if head.None? {
      return NoHeader;
    }
    var header := HeaderOf(head.value);
    if !header.IsValid() {
      return NoHeader;
    }
    if !IsBegin(header) {
      EndRequestBytes(header.RequestId(), 0, CantMpxConn);
      io.WriteBytes(EndRequest(header.RequestId(), 0, CantMpxConn).Bytes());
      return Denied(CantMpxConn);
    }
    r := AcceptBody(io, header, s, old(io.history));
  }

  /** If both reads got their 8 bytes and a request begins, it is accepted exactly if its parameters are sound. */
  lemma AcceptDecides(r: Acceptance, io: Descriptor, s: seq<byte>, history: seq<(nat, nat)>, wire: seq<byte>)
    requires AcceptedAs(r, io, s, history, wire)
    ensures TwoWholeReads(history, io.history) && Begins(s) ==>
              if Sound(ParamsBehind(s)) then r.Connected? else r.NoParameters?
    ensures r.Connected? || r.NoParameters? ==> TwoWholeReads(history, io.history) && Begins(s)
  {
    if r.NoBody? {
      var n :| 0 <= n < 8 && io.history == history + [(8, 8), (8, n)];
      assert io.history[|history| + 1] == (8, n);
    }
  }
}
