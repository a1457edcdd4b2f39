/**
  * The name-value pair coding of section 3.4 of the FastCGI Specification and what the
  * Names_values constructor of src/fcgi/basics.cpp accepts, on byte sequences.
  */
module NamesValues {
  import opened Arithmetic
  import opened Basics

  const INT_LIMIT: nat := 0x8000_0000

  datatype Pair = Pair(name: seq<byte>, value: seq<byte>)

  /** A pair with the choice, for each length, between one byte and four. */
  datatype Form = Form(pair: Pair, wideName: bool, wideValue: bool)
  {
    /** One byte holds up to 127, and the two lengths are added in a 32-bit signed int. */
    predicate Legal() {
      && (wideName || |pair.name| < 128)
      && (wideValue || |pair.value| < 128)
      && |pair.name| + |pair.value| < INT_LIMIT
    }

    function Bytes(): seq<byte>
      requires Legal()
    {
      EncodeLength(|pair.name|, wideName) + EncodeLength(|pair.value|, wideValue) + pair.name + pair.value
    }
  }

  predicate AllLegal(fs: seq<Form>) {
    forall i :: 0 <= i < |fs| ==> fs[i].Legal()
  }

  function EncodeLength(n: nat, wide: bool): (s: seq<byte>)
    requires if wide then n < INT_LIMIT else n < 128
    ensures |s| == if wide then 4 else 1
  {
    if wide then [128 + n / 0x100_0000, (n / 0x1_0000) % 256, (n / 256) % 256, n % 256] else [n]
  }

  function EncodePairs(fs: seq<Form>): seq<byte>
    requires AllLegal(fs)
  {
    if fs == [] then [] else fs[0].Bytes() + EncodePairs(fs[1..])
  }

  function Pairs(fs: seq<Form>): (ps: seq<Pair>)
    ensures |ps| == |fs|
  {
    seq(|fs|, i requires 0 <= i < |fs| => fs[i].pair)
  }

  // ---------------------------------------------------------------------------
  // The parser
  // ---------------------------------------------------------------------------

  datatype Length = NoLength | CutLength | Length(n: nat, used: nat)

  /** The bits of a four-byte length: the top bit of the first byte only marks the form. */
  function WideLength(b3: byte, b2: byte, b1: byte, b0: byte): (n: nat)
    requires b3 >= 128
    ensures n < INT_LIMIT
  {
    (b3 - 128) * 0x100_0000 + b2 * 0x1_0000 + b1 * 256 + b0
  }

  function ReadLength(s: seq<byte>): (r: Length)
    ensures r.Length? ==> r.n < INT_LIMIT && 1 <= r.used <= |s|
  {
    if s == [] then NoLength
    else if s[0] < 128 then Length(s[0], 1)
    else if |s| < 4 then CutLength
    else Length(WideLength(s[0], s[1], s[2], s[3]), 4)
  }

  datatype ParseError = LengthCut | ValueLengthMissing | SumOverflow | DataCut

  datatype First = Nothing | Bad(error: ParseError) | Take(form: Form, used: nat)

  function ParseFirst(s: seq<byte>): (r: First)
    ensures r.Take? ==> 2 <= r.used <= |s|
  {
    match ReadLength(s)
    case NoLength => Nothing
    case CutLength => Bad(LengthCut)
    case Length(n, i) =>
      match ReadLength(s[i..])
      case NoLength => Bad(ValueLengthMissing)
      case CutLength => Bad(LengthCut)
      case Length(m, j) =>
        if n + m >= INT_LIMIT then Bad(SumOverflow)
        else if |s| < i + j + n + m then Bad(DataCut)
        else
          var name, value := s[i + j..i + j + n], s[i + j + n..i + j + n + m];
          Take(Form(Pair(name, value), i == 4, j == 4), i + j + n + m)
  }

  function Parse(s: seq<byte>): Result<seq<Pair>, ParseError>
    decreases |s|
  {
    match ParseFirst(s)
    case Nothing => Ok([])
    case Bad(e) => Err(e)
    case Take(f, n) => Prepend([f.pair], Parse(s[n..]))
  }

  function Prepend(ps: seq<Pair>, r: Result<seq<Pair>, ParseError>): Result<seq<Pair>, ParseError> {
    match r
    case Ok(qs) => Ok(ps + qs)
    case Err(e) => Err(e)
  }

  /** The two lengths that lead a pair, and the bytes they take. */
  function LengthsOf(s: seq<byte>): (r: Option<(nat, nat, nat)>)
    ensures r.Some? ==> r.value.2 <= |s|
  {
    match ReadLength(s)
    case Length(n, i) =>
      (match ReadLength(s[i..])
       case Length(m, j) => Some((n, m, i + j))
       case _ => None)
    case _ => None
  }

  /** The pair behind two lengths, in terms of the bytes behind them. */
  lemma FirstByLengths(s: seq<byte>)
    ensures match LengthsOf(s)
            case None =>
              var r := ParseFirst(s); if s == [] then r.Nothing? else r.Bad? && !r.error.SumOverflow?
            case Some((n, m, used)) =>
              if n + m >= INT_LIMIT then ParseFirst(s) == Bad(SumOverflow)
              else if |s[used..]| < n + m then ParseFirst(s) == Bad(DataCut)
              else
                var r := ParseFirst(s);
                r.Take? && r.used == used + (n + m) && r.form.pair == Pair(s[used..][..n], s[used..][n..n + m])
  {
    if LengthsOf(s).Some? {
      var (n, m, used) := LengthsOf(s).value;
      if |s[used..]| >= n + m {
        TwoPieces(s, used, n, m);
      }
    }
  }

  lemma TwoPieces(s: seq<byte>, at: nat, n: nat, m: nat)
    requires at + n + m <= |s|
    ensures s[at..][..n] == s[at..at + n] && s[at..][n..n + m] == s[at + n..at + n + m]
  {
  }

  lemma PrependNone(r: Result<seq<Pair>, ParseError>)
    ensures Prepend([], r) == r
  {
    if r.Ok? {
      assert [] + r.value == r.value;
    }
  }

  lemma PrependTwice(a: seq<Pair>, b: seq<Pair>, r: Result<seq<Pair>, ParseError>)
    ensures Prepend(a, Prepend(b, r)) == Prepend(a + b, r)
  {
    if r.Ok? {
      assert a + (b + r.value) == a + b + r.value;
    }
  }

  // ---------------------------------------------------------------------------
  // The parser accepts exactly the encodings
  // ---------------------------------------------------------------------------

  lemma JoinBytes(n: nat)
    requires n < INT_LIMIT
    ensures n / 0x100_0000 < 128
    ensures WideLength(128 + n / 0x100_0000, (n / 0x1_0000) % 256, (n / 256) % 256, n % 256) == n
  {
    DivDiv(n);
  }

  /** Shifting by 16 and 24 bits is shifting by 8 twice and three times. */
  lemma DivDiv(n: nat)
    ensures n / 0x1_0000 == (n / 256) / 256 && n / 0x100_0000 == (n / 0x1_0000) / 256
  {
    var a, b := n / 256, n / 256 / 256;
    ModIs(n, 0x1_0000, b, 256 * (a % 256) + n % 256);
    ModIs(n, 0x100_0000, b / 256, 0x1_0000 * (b % 256) + n % 0x1_0000);
  }

  lemma CutBytes(b3: byte, b2: byte, b1: byte, b0: byte)
    requires b3 >= 128
    ensures var n := WideLength(b3, b2, b1, b0);
            n / 0x100_0000 == b3 - 128 && (n / 0x1_0000) % 256 == b2 && (n / 256) % 256 == b1 && n % 256 == b0
  {
    var n := WideLength(b3, b2, b1, b0);
    DivDiv(n);
    assert n / 256 == (b3 - 128) * 0x1_0000 + b2 * 256 + b1;
  }

  lemma LengthRoundTrip(n: nat, wide: bool, tail: seq<byte>)
    requires if wide then n < INT_LIMIT else n < 128
    ensures ReadLength(EncodeLength(n, wide) + tail) == Length(n, if wide then 4 else 1)
  {
    if wide {
      JoinBytes(n);
    }
  }

  lemma LengthSound(s: seq<byte>)
    requires ReadLength(s).Length?
    ensures var r := ReadLength(s); var wide := r.used == 4;
            (wide || r.n < 128) && s[..r.used] == EncodeLength(r.n, wide)
  {
    if s[0] >= 128 {
      CutBytes(s[0], s[1], s[2], s[3]);
      assert s[..4] == [s[0], s[1], s[2], s[3]];
    }
  }

  /** The first pair of an encoding is read back whole, whatever follows it. */
  lemma FirstOfEncoding(f: Form, tail: seq<byte>)
    requires f.Legal()
    ensures ParseFirst(f.Bytes() + tail) == Take(f, |f.Bytes()|)
  {
    var s := f.Bytes() + tail;
    var name, value := f.pair.name, f.pair.value;
    var l0, l1 := EncodeLength(|name|, f.wideName), EncodeLength(|value|, f.wideValue);
    assert s == l0 + (l1 + (name + value + tail));
    LengthRoundTrip(|name|, f.wideName, l1 + (name + value + tail));
    assert s[|l0|..] == l1 + (name + value + tail);
    LengthRoundTrip(|value|, f.wideValue, name + value + tail);
    assert s == l0 + l1 + name + (value + tail);
    assert s[|l0| + |l1|..|l0| + |l1| + |name|] == name;
    assert s[|l0| + |l1| + |name|..|l0| + |l1| + |name| + |value|] == value;
  }

  lemma FirstSound(s: seq<byte>)
    requires ParseFirst(s).Take?
    ensures var r := ParseFirst(s); r.form.Legal() && s[..r.used] == r.form.Bytes()
  {
    var i := ReadLength(s).used;
    var j := ReadLength(s[i..]).used;
    LengthSound(s);
    LengthSound(s[i..]);
    var f := ParseFirst(s).form;
    FourPieces(s, i, j, |f.pair.name|, |f.pair.value|);
    assert s[..i] == EncodeLength(|f.pair.name|, f.wideName);
    assert s[i..][..j] == EncodeLength(|f.pair.value|, f.wideValue);
  }

  lemma FourPieces(s: seq<byte>, i: nat, j: nat, n: nat, m: nat)
    requires i + j + n + m <= |s|
    ensures s[..i + j + n + m] == s[..i] + s[i..][..j] + s[i + j..i + j + n] + s[i + j + n..i + j + n + m]
  {
  }

  lemma ParseOne(f: Form, tail: seq<byte>)
    requires f.Legal()
    ensures Parse(f.Bytes() + tail) == Prepend([f.pair], Parse(tail))
  {
    FirstOfEncoding(f, tail);
    assert (f.Bytes() + tail)[|f.Bytes()|..] == tail;
  }

  /** Decoding any legal encoding, minimal or not, gives back its pairs in order. */
  lemma {:induction false} ParseEncode(fs: seq<Form>)
    requires AllLegal(fs)
    ensures Parse(EncodePairs(fs)) == Ok(Pairs(fs))
  {
    if fs != [] {
      ParseEncode(fs[1..]);
      ParseOne(fs[0], EncodePairs(fs[1..]));
      assert Pairs(fs) == [fs[0].pair] + Pairs(fs[1..]);
    }
  }

  lemma EncodeCons(f: Form, rest: seq<Form>)
    requires f.Legal() && AllLegal(rest)
    ensures AllLegal([f] + rest) && EncodePairs([f] + rest) == f.Bytes() + EncodePairs(rest)
    ensures Pairs([f] + rest) == [f.pair] + Pairs(rest)
  {
    assert ([f] + rest)[1..] == rest;
  }

  lemma SoundCons(s: seq<byte>, f: Form, n: nat, rest: seq<Form>)
    requires ParseFirst(s) == Take(f, n) && AllLegal(rest) && EncodePairs(rest) == s[n..]
    ensures f.Legal() && AllLegal([f] + rest) && EncodePairs([f] + rest) == s
    ensures Pairs([f] + rest) == [f.pair] + Pairs(rest)
  {
    FirstSound(s);
    EncodeCons(f, rest);
    assert s == s[..n] + s[n..];
  }

  /** Whatever the parser accepts is a legal encoding of its answer. */
  lemma {:induction false} ParseSound(s: seq<byte>) returns (fs: seq<Form>)
    requires Parse(s).Ok?
    ensures AllLegal(fs) && EncodePairs(fs) == s && Parse(s).value == Pairs(fs)
    decreases |s|
  {
    match ParseFirst(s) {
      case Nothing =>
        fs := [];
      case Take(f, n) =>
        var rest := ParseSound(s[n..]);
        SoundCons(s, f, n, rest);
        fs := [f] + rest;
    }
  }

  /** The parser succeeds exactly on the concatenations of complete pairs. */
  lemma ParsesExactlyEncodings(s: seq<byte>)
    ensures Parse(s).Ok? <==> exists fs :: AllLegal(fs) && EncodePairs(fs) == s
  {
    if Parse(s).Ok? {
      var fs := ParseSound(s);
    } else {
      forall fs | AllLegal(fs) && EncodePairs(fs) == s ensures false {
        ParseEncode(fs);
      }
    }
  }

  /** Equal bytes start with equal pairs. */
  lemma SameFirst(f: Form, x: seq<byte>, g: Form, y: seq<byte>)
    requires f.Legal() && g.Legal() && f.Bytes() + x == g.Bytes() + y
    ensures f == g && x == y
  {
    FirstOfEncoding(f, x);
    FirstOfEncoding(g, y);
    SameTail(f.Bytes(), x, y);
  }

  lemma SameTail(a: seq<byte>, x: seq<byte>, y: seq<byte>)
    requires a + x == a + y
    ensures x == y
  {
    assert x == (a + x)[|a|..] && y == (a + y)[|a|..];
  }

  /** One encoding starts another only by being its first pairs. */
  lemma {:induction false} EncodingPrefix(gs: seq<Form>, rest: seq<byte>, fs: seq<Form>)
    requires AllLegal(gs) && AllLegal(fs) && EncodePairs(fs) == EncodePairs(gs) + rest
    ensures gs <= fs
  {
    if gs != [] {
      var g, more := gs[0].Bytes(), EncodePairs(gs[1..]);
      assert g + more + rest == g + (more + rest);
      assert |g| >= 2;
      SameFirst(fs[0], EncodePairs(fs[1..]), gs[0], more + rest);
      EncodingPrefix(gs[1..], rest, fs[1..]);
    }
  }

  /** The decomposition into pairs and length forms is unique. */
  lemma EncodingUnique(fs: seq<Form>, gs: seq<Form>)
    requires AllLegal(fs) && AllLegal(gs) && EncodePairs(fs) == EncodePairs(gs)
    ensures fs == gs
  {
    assert EncodePairs(fs) + [] == EncodePairs(fs);
    EncodingPrefix(fs, [], gs);
    EncodingPrefix(gs, [], fs);
  }

  predicate IsBoundary(fs: seq<Form>, k: nat)
    requires AllLegal(fs)
  {
    exists i :: 0 <= i <= |fs| && k == |EncodePairs(fs[..i])|
  }

  lemma {:induction false} EncodePairsConcat(fs: seq<Form>, gs: seq<Form>)
    requires AllLegal(fs) && AllLegal(gs)
    ensures AllLegal(fs + gs) && EncodePairs(fs + gs) == EncodePairs(fs) + EncodePairs(gs)
  {
    if fs == [] {
      assert fs + gs == gs;
    } else {
      EncodePairsConcat(fs[1..], gs);
      assert (fs + gs)[1..] == fs[1..] + gs;
      var a, b, c := fs[0].Bytes(), EncodePairs(fs[1..]), EncodePairs(gs);
      assert a + (b + c) == a + b + c;
    }
  }

  lemma AcceptedCut(fs: seq<Form>, k: nat)
    requires AllLegal(fs) && k <= |EncodePairs(fs)| && Parse(EncodePairs(fs)[..k]).Ok?
    ensures IsBoundary(fs, k)
  {
    var all := EncodePairs(fs);
    var gs := ParseSound(all[..k]);
    CutBoundary(all, gs, fs, k);
  }

  lemma CutBoundary(all: seq<byte>, gs: seq<Form>, fs: seq<Form>, k: nat)
    requires k <= |all| && AllLegal(gs) && AllLegal(fs) && EncodePairs(fs) == all && EncodePairs(gs) == all[..k]
    ensures IsBoundary(fs, k)
  {
    assert all == all[..k] + all[k..];
    EncodingPrefix(gs, all[k..], fs);
    assert gs == fs[..|gs|];
  }

  lemma BoundaryCut(fs: seq<Form>, i: nat)
    requires AllLegal(fs) && i <= |fs|
    ensures var k := |EncodePairs(fs[..i])|; k <= |EncodePairs(fs)| && Parse(EncodePairs(fs)[..k]).Ok?
  {
    var a, b := fs[..i], fs[i..];
    EncodePairsConcat(a, b);
    assert fs == a + b;
    ParseEncode(a);
    assert (EncodePairs(a) + EncodePairs(b))[..|EncodePairs(a)|] == EncodePairs(a);
  }

  /** Cutting an encoding is accepted only between pairs: inside a pair it is rejected. */
  lemma TruncationRejected(fs: seq<Form>, k: nat)
    requires AllLegal(fs) && k <= |EncodePairs(fs)|
    ensures Parse(EncodePairs(fs)[..k]).Ok? <==> IsBoundary(fs, k)
  {
    if Parse(EncodePairs(fs)[..k]).Ok? {
      AcceptedCut(fs, k);
    }
    if IsBoundary(fs, k) {
      var i :| 0 <= i <= |fs| && k == |EncodePairs(fs[..i])|;
      BoundaryCut(fs, i);
    }
  }

  // ---------------------------------------------------------------------------
  // Look-up by name
  // ---------------------------------------------------------------------------

  /** Names_values::pair_index: the first pair of that name. */
  function PairIndex(ps: seq<Pair>, name: seq<byte>): (r: Option<nat>)
    ensures r.Some? <==> exists i :: 0 <= i < |ps| && ps[i].name == name
    ensures r.Some? ==> r.value < |ps| && ps[r.value].name == name
                        && forall i :: 0 <= i < r.value ==> ps[i].name != name
  {
    if ps == [] then None
    else if ps[0].name == name then Some(0)
    else
      match PairIndex(ps[1..], name)
      case None =>
        assert forall i :: 1 <= i < |ps| ==> ps[i] == ps[1..][i - 1];
        None
      case Some(i) =>
        assert forall j :: 1 <= j < |ps| ==> ps[j] == ps[1..][j - 1];
        Some(i + 1)
  }
}
