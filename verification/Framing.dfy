/** Length-prefixed packets: four bytes of little-endian length, then the payload. Three languages write them; the Java
    client reads them from a channel that hands out a stream in arbitrary pieces. */
module Framing {

  type byte = x: int | 0 <= x < 256

  const TWO31 := 0x8000_0000
  const TWO32 := 0x1_0000_0000

  function LE32(n: int): (b: seq<byte>)
    requires 0 <= n < TWO32
    ensures |b| == 4
  {
    [n % 256, n / 256 % 256, n / 65536 % 256, n / 16777216]
  }

  function FromLE32(b: seq<byte>): (n: int)
    requires |b| == 4
    ensures 0 <= n < TWO32
  {
    b[0] as int + 256 * b[1] as int + 65536 * b[2] as int + 16777216 * b[3] as int
  }

  /** Two's complement. */
  function Signed32(n: int): int
    requires 0 <= n < TWO32
  {
    if n < TWO31 then n else n - TWO32
  }

  /** Least significant byte first: byte k counts multiples of 256 to the power k. */
  lemma LittleEndian(n: int)
    requires 0 <= n < TWO32
    ensures n == LE32(n)[0] as int + 0x100 * LE32(n)[1] as int + 0x1_0000 * LE32(n)[2] as int
                 + 0x100_0000 * LE32(n)[3] as int
    ensures n < 0x100 ==> LE32(n) == [n, 0, 0, 0]
  {
    LengthRoundTrip(n);
    if n < 0x100 {
      assert n % 256 == n && n / 256 == 0 && n / 65536 == 0 && n / 16777216 == 0;
    }
  }

  lemma LengthRoundTrip(n: int)
    requires 0 <= n < TWO32
    ensures FromLE32(LE32(n)) == n
  {
    var low, mid, high := n / 256, n / 65536, n / 16777216;
    assert n == 256 * low + n % 256;
    assert low == 256 * mid + low % 256;
    assert mid == 256 * high + mid % 256;
  }

  // ---------------------------------------------------------------------------------------------- writers

  datatype Written = Bytes(bytes: seq<byte>) | Refused

  function Frame(p: seq<byte>): seq<byte>
    requires |p| < TWO32
  {
    LE32(|p|) + p
  }

  /** `Client._send_packet`: `pack("<l", len)` raises when the length is not an int32. */
  function PythonWrite(p: seq<byte>): Written {
    if |p| >= TWO31 then Refused else Bytes(Frame(p))
  }

  /** `Send`: the length is truncated to 32 bits. */
  function GoWrite(p: seq<byte>): Written { Bytes(LE32(|p| % TWO32) + p) }

  /** `write_packet`: `write_uint4` throws above 8*8*8*8. */
  function JavaWrite(p: seq<byte>): Written {
    if |p| > 8 * 8 * 8 * 8 then Refused else Bytes(Frame(p))
  }

  /** The writers that do not refuse agree; Python refuses exactly from 2^31 bytes on, and Java above 4096 bytes. */
  lemma WritersAgree(p: seq<byte>)
    requires |p| < TWO32
    ensures GoWrite(p) == Bytes(Frame(p))
    ensures PythonWrite(p) == if |p| < TWO31 then Bytes(Frame(p)) else Refused
    ensures JavaWrite(p) == if |p| <= 4096 then Bytes(Frame(p)) else Refused
  {
  }

  /** From 2^32 bytes on Go writes a length that is too short by a multiple of 2^32. */
  lemma GoTruncates(p: seq<byte>)
    requires |p| >= TWO32
    ensures exists n: nat :: n < TWO32 && n < |p| && (|p| - n) % TWO32 == 0 && GoWrite(p) == Bytes(LE32(n) + p)
  {
    var n := |p| % TWO32;
    assert |p| - n == |p| / TWO32 * TWO32;
    assert GoWrite(p) == Bytes(LE32(n) + p) && n < TWO32 && n < |p| && (|p| - n) % TWO32 == 0;
  }

  // ---------------------------------------------------------------------------------------------- decoding

  datatype Decoded = Packet(payload: seq<byte>, rest: seq<byte>) | Incomplete | Negative

  /** The first packet of a stream, for a reader that takes the length as a signed 32-bit number. */
  function Decode(s: seq<byte>): Decoded {
    if |s| < 4 then Incomplete
    else
      var size := Signed32(FromLE32(s[..4]));
      if size < 0 then Negative
      else if |s| < 4 + size then Incomplete
      else Packet(s[4..4 + size], s[4 + size..])
  }

  /** Decoding what was written gives it back; the boundary is exact: from 2^31 bytes on the reader sees a negative
      length. */
  lemma DecodeFrameIff(p: seq<byte>, rest: seq<byte>)
    requires |p| < TWO32
    ensures Decode(Frame(p) + rest) == Packet(p, rest) <==> |p| < TWO31
  {
    var s := Frame(p) + rest;
    assert s[..4] == LE32(|p|);
    LengthRoundTrip(|p|);
    if |p| < TWO31 {
      assert s[4..4 + |p|] == p && s[4 + |p|..] == rest;
    }
  }

  /** No strict beginning of a frame decodes to anything. */
  lemma NoPrefixDecodes(p: seq<byte>, n: nat)
    requires |p| < TWO31 && n < |Frame(p)|
    ensures Decode(Frame(p)[..n]) == Incomplete
  {
    if n >= 4 {
      assert Frame(p)[..n][..4] == LE32(|p|);
      LengthRoundTrip(|p|);
    }
  }

  ghost predicate Sendable(ps: seq<seq<byte>>) { forall k :: 0 <= k < |ps| ==> |ps[k]| < TWO31 }

  function Frames(ps: seq<seq<byte>>): seq<byte>
    requires forall k :: 0 <= k < |ps| ==> |ps[k]| < TWO32
  {
    if ps == [] then [] else Frame(ps[0]) + Frames(ps[1..])
  }

  /** The first n packets of a stream and what follows them, or None. */
  function DecodeMany(s: seq<byte>, n: nat): (r: (seq<seq<byte>>, seq<byte>, bool))
  {
    if n == 0 then ([], s, true)
    else match Decode(s)
      case Packet(p, rest) => var (ps, end, ok) := DecodeMany(rest, n - 1); ([p] + ps, end, ok)
      case _ => ([], s, false)
  }

  lemma NextFrame(ps: seq<seq<byte>>, k: nat, rest: seq<byte>)
    requires Sendable(ps) && k < |ps|
    ensures Decode(Frames(ps[k..]) + rest) == Packet(ps[k], Frames(ps[k + 1..]) + rest)
  {
    var more := Frames(ps[k + 1..]) + rest;
    assert ps[k..][1..] == ps[k + 1..];
    assert Frames(ps[k..]) + rest == Frame(ps[k]) + more;
    DecodeFrameIff(ps[k], more);
  }

  /** A whole conversation: any list of packets, one frame after the other, decodes to the list and leaves what follows
      untouched. */
  lemma {:induction false} FramesRoundTrip(ps: seq<seq<byte>>, rest: seq<byte>)
    requires Sendable(ps)
    ensures DecodeMany(Frames(ps) + rest, |ps|) == (ps, rest, true)
  {
    if ps == [] {
      assert Frames(ps) + rest == rest;
    } else {
      var more := Frames(ps[1..]) + rest;
      assert Frames(ps) + rest == Frame(ps[0]) + more;
      DecodeFrameIff(ps[0], more);
      FramesRoundTrip(ps[1..], rest);
      assert ps == [ps[0]] + ps[1..];
    }
  }

  /** So two lists with the same bytes are the same list. */
  lemma {:induction false} FramesUnique(ps: seq<seq<byte>>, qs: seq<seq<byte>>)
    requires Sendable(ps) && Sendable(qs) && Frames(ps) == Frames(qs)
    ensures ps == qs
    decreases |ps|
  {
    if ps != [] && qs != [] {
      DecodeFrameIff(ps[0], Frames(ps[1..]));
      DecodeFrameIff(qs[0], Frames(qs[1..]));
      FramesUnique(ps[1..], qs[1..]);
      assert ps == [ps[0]] + ps[1..] && qs == [qs[0]] + qs[1..];
    }
  }

  // ---------------------------------------------------------------------------------------------- reading in pieces

  function Flatten(chunks: seq<seq<byte>>): seq<byte> {
    if chunks == [] then [] else chunks[0] + Flatten(chunks[1..])
  }

  datatype Received = Payload(payload: seq<byte>) | NegativeSize

  /** A channel whose stream arrives in non-empty pieces. A read gives at most the piece at hand. */
  class Channel {
    var chunks: seq<seq<byte>>

    ghost predicate Valid()
      reads this
    {
      forall k :: 0 <= k < |chunks| ==> chunks[k] != []
    }

    function Stream(): seq<byte>
      reads this
    {
      Flatten(chunks)
    }

    constructor (chunks: seq<seq<byte>>)
      requires forall k :: 0 <= k < |chunks| ==> chunks[k] != []
      ensures Valid() && Stream() == Flatten(chunks)
    {
      this.chunks := chunks;
    }

    /** `in.read(b)`: fills the buffer from `pos` on, by at least one byte. */
    method Read(b: array<byte>, pos: nat) returns (n: nat)
      requires Valid() && pos < b.Length && Stream() != []
      modifies this, b
      ensures Valid() && 0 < n <= b.Length - pos && n <= |old(Stream())|
      ensures Stream() == old(Stream())[n..]
      ensures b[..pos] == old(b[..pos]) && b[pos..pos + n] == old(Stream())[..n]
    {
      var chunk := chunks[0];
      ghost var later := Flatten(chunks[1..]);
      n := if |chunk| <= b.Length - pos then |chunk| else b.Length - pos;
      forall i | 0 <= i < n {
        b[pos + i] := chunk[i];
      }
      chunks := if n == |chunk| then chunks[1..] else [chunk[n..]] + chunks[1..];
      assert n < |chunk| ==> chunks[1..] == old(chunks)[1..];
      assert Stream() == chunk[n..] + later;
      assert b[pos..pos + n] == chunk[..n];
    }

    /** `read_full`: keeps reading until the buffer is full. */
    method ReadFull(b: array<byte>)
      requires Valid() && b.Length <= |Stream()|
      modifies this, b
      ensures Valid() && b[..] == old(Stream())[..b.Length] && Stream() == old(Stream())[b.Length..]
    {
      var limit := b.Length;
      var read := 0;
      ghost var all := Stream();
      while read < limit
        invariant Valid() && 0 <= read <= limit
        invariant b[..read] == all[..read] && Stream() == all[read..]
      {
        ghost var before := b[..read];
        var n := Read(b, read);
        assert b[..read + n] == before + b[read..read + n];
        assert all[read..][..n] == all[read..read + n] && all[..read] + all[read..read + n] == all[..read + n];
        assert all[read..][n..] == all[read + n..];
        read := read + n;
      }
      assert b[..] == b[..limit];
    }

    /** `read_packet`: `read_uint4`, then a buffer of that size, whose allocation throws for a negative one. However the
        stream is cut into pieces, the packet is the one its bytes decode to, and the rest of the stream is left. */
    method ReadPacket() returns (r: Received)
      requires Valid() && !Decode(Stream()).Incomplete?
      modifies this
      ensures Valid()
      ensures if Decode(old(Stream())).Negative? then r == NegativeSize && Stream() == old(Stream())[4..]
              else r.Payload? && Decode(old(Stream())) == Packet(r.payload, Stream())
    {
      var header := new byte[4];
      ReadFull(header);
      var size := Signed32(FromLE32(header[..]));
      if size < 0 {
        return NegativeSize;
      }
      var body := new byte[size];
      ReadFull(body);
      r := Payload(body[..]);
    }

    /** One packet after another: whatever was sent is received, and what follows is left in the stream. */
    method ReadPackets(n: nat, ghost ps: seq<seq<byte>>, ghost rest: seq<byte>) returns (packets: seq<seq<byte>>)
      requires Valid() && n == |ps| && Sendable(ps) && Stream() == Frames(ps) + rest
      modifies this
      ensures Valid() && packets == ps && Stream() == rest
    {
      packets := [];
      for k := 0 to n
        invariant Valid() && packets == ps[..k] && Stream() == Frames(ps[k..]) + rest
      {
        NextFrame(ps, k, rest);
        var r := ReadPacket();
        packets := packets + [r.payload];
      }
    }
  }
}
