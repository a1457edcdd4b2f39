/** The connected descriptor of src/net/descriptor.hpp, reduced to the bytes it carries. */
module Transport {
  import opened Basics

  /** At most `most` reads have been added, each of which asked for `size` bytes. */
  predicate Asked(before: seq<(nat, nat)>, after: seq<(nat, nat)>, size: nat, most: nat) {
    && before <= after && |after| <= |before| + most
    && forall i :: |before| <= i < |after| ==> after[i].0 == size
  }

  lemma AskedTwice(a: seq<(nat, nat)>, b: seq<(nat, nat)>, c: seq<(nat, nat)>, size: nat, m: nat, n: nat)
    requires Asked(a, b, size, m) && Asked(b, c, size, n)
    ensures Asked(a, c, size, m + n)
  {
  }

  class Descriptor {
    /** The bytes the peer sends from here on until it shuts its side down. */
    var incoming: seq<byte>
    /** Every byte written so far. */
    var wire: seq<byte>
    /** The reads so far: how many bytes each asked for, and how many it got. */
    ghost var history: seq<(nat, nat)>

    constructor (incoming: seq<byte>)
      ensures this.incoming == incoming && wire == [] && history == []
    {
      this.incoming, wire, history := incoming, [], [];
    }

    /** Reads any positive number of bytes up to `len`, or none once the peer has shut down. */
    method Read(buf: array<byte>, len: nat) returns (count: nat)
      requires 0 < len <= buf.Length
      modifies this, buf
      ensures count <= len && count <= |old(incoming)|
      ensures count == 0 <==> old(incoming) == []
      ensures incoming == old(incoming)[count..]
      ensures buf[..count] == old(incoming)[..count] && buf[count..] == old(buf[count..])
      ensures wire == old(wire) && history == old(history) + [(len, count)]
    {
      if incoming == [] {
        history := history + [(len, 0)];
        return 0;
      }
      count :| 1 <= count <= len && count <= |incoming|;
      forall i | 0 <= i < count {
        buf[i] := incoming[i];
      }
      incoming := incoming[count..];
      history := history + [(len, count)];
    }

    /** Writes the first `len` bytes of `buf`, all of them. */
    method Write(buf: array<byte>, len: nat)
      requires len <= buf.Length
      modifies this
      ensures wire == old(wire) + old(buf[..len])
      ensures incoming == old(incoming) && history == old(history)
    {
      wire := wire + buf[..len];
    }

    /** Writes a structure laid out in memory. */
    method WriteBytes(bytes: seq<byte>)
      modifies this
      ensures wire == old(wire) + bytes
      ensures incoming == old(incoming) && history == old(history)
    {
      wire := wire + bytes;
    }
  }
}
