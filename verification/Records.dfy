/**
  * The fixed-size structures of src/fcgi/basics.cpp and the record framing of section 3.3 of
  * the FastCGI Specification.
  */
module Records {
  import opened Basics

  const BEGIN_REQUEST: byte := 1
  const END_REQUEST: byte := 3

  const HEADER_SIZE: nat := 8
  const MAX_CONTENT: nat := 65535
  const MAX_PADDING: nat := 255
  const MAX_ID: nat := 65535

  datatype Role = Responder | Authorizer | Filter

  datatype StreamType = Params | In | Out | Err | Data
  {
    function Code(): byte {
      match this
      case Params => 4
      case In => 5
      case Out => 6
      case Err => 7
      case Data => 8
    }
  }

  datatype ProtocolStatus = RequestComplete | CantMpxConn | Overloaded | UnknownRole
  {
    function Code(): byte {
      match this
      case RequestComplete => 0
      case CantMpxConn => 1
      case Overloaded => 2
      case UnknownRole => 3
    }
  }

  /** The eight bytes of a record header, in wire order. */
  datatype Header = Header(
    version: byte, recordType: byte, idB1: byte, idB0: byte,
    lengthB1: byte, lengthB0: byte, paddingLength: byte, reserved: byte)
  {
    function RequestId(): nat {
      idB1 * 256 + idB0
    }

    function ContentLength(): nat {
      lengthB1 * 256 + lengthB0
    }

    predicate IsValid() {
      version == 1
    }

    predicate IsManagement() {
      RequestId() == 0
    }

    function Bytes(): (s: seq<byte>)
      ensures |s| == HEADER_SIZE
    {
      [version, recordType, idB1, idB0, lengthB1, lengthB0, paddingLength, reserved]
    }
  }

  /** The header laid over eight bytes of a buffer. */
  function HeaderOf(s: seq<byte>): Header
    requires |s| == HEADER_SIZE
  {
    Header(s[0], s[1], s[2], s[3], s[4], s[5], s[6], s[7])
  }

  /** The field-wise constructor: each length is cut into bytes by shifting and masking. */
  function MakeHeader(recordType: byte, requestId: nat, contentLength: nat, padding: nat): Header {
    Header(1, recordType, (requestId / 256) % 256, requestId % 256,
           (contentLength / 256) % 256, contentLength % 256, padding % 256, 0)
  }

  /** Body of a begin-request record. */
  datatype BeginRequestBody = BeginRequestBody(roleB1: byte, roleB0: byte, flags: byte, reserved: seq<byte>)
  {
    function RoleCode(): nat {
      roleB1 * 256 + roleB0
    }

    /** The role, unless the code names none of the three. */
    function Role(): Option<Role> {
      if RoleCode() == 1 then Some(Responder)
      else if RoleCode() == 2 then Some(Authorizer)
      else if RoleCode() == 3 then Some(Filter)
      else None
    }

    predicate IsKeepConn() {
      flags % 2 == 1
    }
  }

  function BeginRequestBodyOf(s: seq<byte>): BeginRequestBody
    requires |s| == 8
  {
    BeginRequestBody(s[0], s[1], s[2], s[3..])
  }

  /** Body of an end-request record; the status is shifted arithmetically, so it may be negative. */
  function EndRequestBody(applicationStatus: int, status: ProtocolStatus): (s: seq<byte>)
    ensures |s| == 8
  {
    [(applicationStatus / 0x100_0000) % 256, (applicationStatus / 0x1_0000) % 256,
     (applicationStatus / 256) % 256, applicationStatus % 256, status.Code(), 0, 0, 0]
  }

  /** The 32-bit signed status a client reads back from an end-request body. */
  function StatusOf(body: seq<byte>): int
    requires |body| == 8
  {
    var word: int := body[0] as int * 0x100_0000 + body[1] as int * 0x1_0000 + body[2] as int * 256 + body[3];
    if word < 0x8000_0000 then word else word - 0x1_0000_0000
  }

  datatype Record = Record(recordType: byte, id: nat, content: seq<byte>, padding: seq<byte>)
  {
    predicate Valid() {
      id <= MAX_ID && |content| <= MAX_CONTENT && |padding| <= MAX_PADDING
    }

    function Head(): Header {
      MakeHeader(recordType, id, |content|, |padding|)
    }

    function Bytes(): seq<byte> {
      Head().Bytes() + content + padding
    }
  }

  function EndRequest(id: nat, applicationStatus: int, status: ProtocolStatus): Record {
    Record(END_REQUEST, id, EndRequestBody(applicationStatus, status), [])
  }

  /** The 16 bytes of END_REQUEST in numbers; the status is cut into bytes, the highest first. */
  function EndBytes(id: nat, status: int, protocol: byte): (s: seq<byte>)
    requires id <= 65535
    ensures |s| == 16
  {
    [1, 3, id / 256, id % 256, 0, 8, 0, 0,
     status / 16777216 % 256, status / 65536 % 256, status / 256 % 256, status % 256, protocol, 0, 0, 0]
  }

  /** Protocol status 0 for a normal end, 1 where requests are not multiplexed, 3 for an unknown role. */
  lemma EndRequestBytes(id: nat, status: int, reason: ProtocolStatus)
    requires id <= 65535
    ensures var protocol :=
              match reason case RequestComplete => 0 case CantMpxConn => 1 case Overloaded => 2 case UnknownRole => 3;
            EndRequest(id, status, reason).Bytes() == EndBytes(id, status, protocol)
  {
    var body := EndRequestBody(status, reason);
    assert |body| == 8 && EndRequest(id, status, reason).Head().Bytes() == [1, 3, id / 256, id % 256, 0, 8, 0, 0];
  }

  function Encode(rs: seq<Record>): seq<byte> {
    if rs == [] then [] else rs[0].Bytes() + Encode(rs[1..])
  }

  predicate AllValid(rs: seq<Record>) {
    forall i :: 0 <= i < |rs| ==> rs[i].Valid()
  }

  /** Cuts bytes into whole version 1 records, or None where that is impossible. */
  function Decode(s: seq<byte>): Option<seq<Record>>
    decreases |s|
  {
    if s == [] then Some([])
    else if |s| < HEADER_SIZE then None
    else
      var h := HeaderOf(s[..HEADER_SIZE]);
      var contentEnd := HEADER_SIZE + h.ContentLength();
      var end := contentEnd + h.paddingLength;
      if !h.IsValid() || |s| < end then None
      else
        var r := Record(h.recordType, h.RequestId(), s[HEADER_SIZE..contentEnd], s[contentEnd..end]);
        match Decode(s[end..])
        case None => None
        case Some(rs) => Some([r] + rs)
  }

  // ---------------------------------------------------------------------------

  /** The field-wise constructor and the accessors agree, through the bytes. */
  lemma HeaderRoundTrip(recordType: byte, id: nat, contentLength: nat, padding: nat)
    requires id <= MAX_ID && contentLength <= MAX_CONTENT && padding <= MAX_PADDING
    ensures var h := HeaderOf(MakeHeader(recordType, id, contentLength, padding).Bytes());
            h.IsValid() && h.recordType == recordType && h.RequestId() == id
            && h.ContentLength() == contentLength && h.paddingLength == padding
  {
  }

  lemma StatusRoundTrip(applicationStatus: int, status: ProtocolStatus)
    requires -0x8000_0000 <= applicationStatus < 0x8000_0000
    ensures StatusOf(EndRequestBody(applicationStatus, status)) == applicationStatus
  {
    ByteSplit(applicationStatus);
  }

  /** The bytes shifted out of a 32-bit signed value weigh up to it modulo 2^32. */
  lemma ByteSplit(n: int)
    requires -0x8000_0000 <= n < 0x8000_0000
    ensures ((n / 0x100_0000) % 256) * 0x100_0000 + ((n / 0x1_0000) % 256) * 0x1_0000
            + ((n / 256) % 256) * 256 + n % 256 == if n >= 0 then n else n + 0x1_0000_0000
  {
    var a, b, c := n / 256, n / 0x1_0000, n / 0x100_0000;
    assert b == a / 256;
    assert c == b / 256;
    assert -128 <= c < 128;
  }

  lemma Associate(a: seq<byte>, b: seq<byte>, c: seq<byte>)
    ensures (a + b) + c == a + (b + c)
  {
  }

  lemma {:induction false} EncodeConcat(a: seq<Record>, b: seq<Record>)
    ensures Encode(a + b) == Encode(a) + Encode(b)
  {
    if a == [] {
      assert a + b == b;
    } else {
      EncodeConcat(a[1..], b);
      assert (a + b)[1..] == a[1..] + b && (a + b)[0] == a[0];
      Associate(a[0].Bytes(), Encode(a[1..]), Encode(b));
    }
  }

  lemma EncodeOne(r: Record)
    ensures Encode([r]) == r.Bytes()
  {
    assert [r][1..] == [];
    assert r.Bytes() + [] == r.Bytes();
  }

  /** The bytes of a valid record in front of anything: where its parts lie. */
  lemma RecordLayout(r: Record, tail: seq<byte>)
    requires r.Valid()
    ensures var s := r.Bytes() + tail; var c := HEADER_SIZE + |r.content|; var e := c + |r.padding|;
            |s| >= e && s[..HEADER_SIZE] == r.Head().Bytes() && s[HEADER_SIZE..] == r.content + r.padding + tail
            && s[HEADER_SIZE..c] == r.content && s[c..e] == r.padding && s[e..] == tail
  {
    var s := r.Bytes() + tail;
    assert s == r.Head().Bytes() + (r.content + r.padding + tail);
  }

  /** Decoding undoes encoding, so the wire determines its records. */
  lemma {:induction false} DecodeEncode(rs: seq<Record>)
    requires AllValid(rs)
    ensures Decode(Encode(rs)) == Some(rs)
  {
    if rs != [] {
      DecodeEncode(rs[1..]);
      var r := rs[0];
      RecordLayout(r, Encode(rs[1..]));
      HeaderRoundTrip(r.recordType, r.id, |r.content|, |r.padding|);
      assert rs == [r] + rs[1..];
    }
  }

  lemma EncodeInjective(a: seq<Record>, b: seq<Record>)
    requires AllValid(a) && AllValid(b) && Encode(a) == Encode(b)
    ensures a == b
  {
    DecodeEncode(a);
    DecodeEncode(b);
  }
}
