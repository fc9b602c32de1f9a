/**
 * The byte layout of the server's log file: records one after another,
 * each an 8-byte header holding the metadata length and the payload length
 * as little-endian signed 32-bit integers, then the metadata bytes, then
 * the payload bytes. What the bytes mean (JSON) is not modelled.
 */
module LogFormat {
  import opened Wrappers
  import opened Values

  newtype byte = b: int | 0 <= b < 256

  const Int32Min: int := -0x8000_0000
  const Int32Max: int := 0x7FFF_FFFF
  const HeaderSize: nat := 8

  /** 256 to the `n`. */
  function Pow256(n: nat): (r: nat)
    ensures r > 0
  {
    if n == 0 then 1 else 256 * Pow256(n - 1)
  }

  /** The `n` little-endian bytes of `u`. */
  function Bytes(u: nat, n: nat): (r: seq<byte>)
    ensures |r| == n
  {
    if n == 0 then [] else [(u % 256) as byte] + Bytes(u / 256, n - 1)
  }

  /** The unsigned number little-endian bytes spell. */
  function Unsigned(bs: seq<byte>): (r: nat)
    ensures r < Pow256(|bs|)
  {
    if |bs| == 0 then 0 else bs[0] as nat + 256 * Unsigned(bs[1..])
  }

  lemma {:induction false} UnsignedOfBytes(u: nat, n: nat)
    requires u < Pow256(n)
    ensures Unsigned(Bytes(u, n)) == u
  {
    if n > 0 {
      UnsignedOfBytes(u / 256, n - 1);
      assert Bytes(u, n)[1..] == Bytes(u / 256, n - 1);
    }
  }

  lemma {:induction false} BytesOfUnsigned(bs: seq<byte>)
    ensures Bytes(Unsigned(bs), |bs|) == bs
  {
    if |bs| > 0 {
      var k := Unsigned(bs[1..]);
      assert (bs[0] as nat + 256 * k) % 256 == bs[0] as nat;
      assert (bs[0] as nat + 256 * k) / 256 == k;
      BytesOfUnsigned(bs[1..]);
    }
  }

  /** `buf.writeInt32LE(v)`: two's complement, little-endian; a value out of range throws. */
  function EncodeInt32(v: int): (r: Result<seq<byte>, Error>)
    ensures r.Success? <==> Int32Min <= v <= Int32Max
    ensures r.Success? ==> |r.value| == 4
    ensures r.Failure? ==> r.error == Int32Range
  {
    if v < Int32Min || v > Int32Max then Failure(Int32Range)
    else Success(Bytes(if v < 0 then v + 0x1_0000_0000 else v, 4))
  }

  /** `buf.readInt32LE(offset)` on four bytes. */
  function DecodeInt32(bs: seq<byte>): (r: int)
    requires |bs| == 4
    ensures Int32Min <= r <= Int32Max
  {
    var u := Unsigned(bs);
    if u > Int32Max then u - 0x1_0000_0000 else u
  }

  /** Writing a 32-bit integer and reading it back gives it again, and any four bytes are the writing of what they read as. */
  lemma Int32RoundTrip(v: int, bs: seq<byte>)
    requires |bs| == 4
    ensures Int32Min <= v <= Int32Max ==> DecodeInt32(EncodeInt32(v).value) == v
    ensures EncodeInt32(DecodeInt32(bs)) == Success(bs)
  {
    assert Pow256(4) == 0x1_0000_0000;
    if Int32Min <= v <= Int32Max {
      UnsignedOfBytes(if v < 0 then v + 0x1_0000_0000 else v, 4);
    }
    BytesOfUnsigned(bs);
  }

  // ---------------------------------------------------------------------
  // Records
  // ---------------------------------------------------------------------

  /** A record of the log: the metadata bytes and the payload bytes. */
  datatype Frame = Frame(metadata: seq<byte>, payload: seq<byte>)

  /** The header and the two buffers `storeInDB` writes; a buffer too long for a 32-bit length throws. */
  function WriteFrame(f: Frame): (r: Result<seq<byte>, Error>)
    ensures r.Success? <==> |f.metadata| <= Int32Max && |f.payload| <= Int32Max
    ensures r.Success? ==> |r.value| == HeaderSize + |f.metadata| + |f.payload|
    ensures r.Success? ==> r.value[HeaderSize..] == f.metadata + f.payload
  {
    var m :- EncodeInt32(|f.metadata|);
    var p :- EncodeInt32(|f.payload|);
    Success(m + p + f.metadata + f.payload)
  }

  /**
   * The start-up loop over the file's bytes: nothing left ends it; a
   * short header or a short body throws, and so does a negative length
   * (`Buffer.alloc` refuses it), each check in the order the loop makes
   * them.
   */
  function ReadFrames(bs: seq<byte>): (r: Result<seq<Frame>, Error>)
    decreases |bs|
  {
    if |bs| == 0 then Success([])
    else if |bs| < HeaderSize then Failure(ShortRead)
    else
      var m := DecodeInt32(bs[0..4]);
      var p := DecodeInt32(bs[4..8]);
      var body := bs[HeaderSize..];
      if m < 0 then Failure(NegativeLength)
      else if |body| < m then Failure(ShortRead)
      else if p < 0 then Failure(NegativeLength)
      else if |body| - m < p then Failure(ShortRead)
      else
        var rest :- ReadFrames(body[m + p..]);
        Success([Frame(body[..m], body[m..m + p])] + rest)
  }

  /** The bytes of a sequence of records, written one after another. */
  function WriteFrames(fs: seq<Frame>): (r: Result<seq<byte>, Error>)
    ensures r.Success? <==> forall i :: 0 <= i < |fs| ==> WriteFrame(fs[i]).Success?
    decreases |fs|
  {
    if |fs| == 0 then Success([])
    else
      var first :- WriteFrame(fs[0]);
      var rest :- WriteFrames(fs[1..]);
      assert forall i :: 1 <= i < |fs| ==> fs[i] == fs[1..][i - 1];
      Success(first + rest)
  }

  /** Reading a written record, followed by anything, yields the record and then what the rest reads as. */
  lemma ReadWrittenFrame(f: Frame, rest: seq<byte>)
    requires WriteFrame(f).Success?
    ensures ReadFrames(WriteFrame(f).value + rest) ==
      match ReadFrames(rest)
      case Success(fs) => Success([f] + fs)
      case Failure(e) => Failure(e)
  {
    var m := EncodeInt32(|f.metadata|).value;
    var p := EncodeInt32(|f.payload|).value;
    var bs := WriteFrame(f).value + rest;
    Int32RoundTrip(|f.metadata|, m);
    Int32RoundTrip(|f.payload|, p);
    assert bs[0..4] == m;
    assert bs[4..8] == p;
    var body := bs[HeaderSize..];
    assert body == f.metadata + f.payload + rest;
    assert body[..|f.metadata|] == f.metadata;
    assert body[|f.metadata|..|f.metadata| + |f.payload|] == f.payload;
    assert body[|f.metadata| + |f.payload|..] == rest;
  }

  /** The start-up loop reads back exactly the records the server wrote. */
  lemma {:induction false} ReadWrittenFrames(fs: seq<Frame>)
    requires WriteFrames(fs).Success?
    ensures ReadFrames(WriteFrames(fs).value) == Success(fs)
    decreases |fs|
  {
    if |fs| > 0 {
      var rest := WriteFrames(fs[1..]).value;
      ReadWrittenFrames(fs[1..]);
      ReadWrittenFrame(fs[0], rest);
      assert [fs[0]] + fs[1..] == fs;
    }
  }
}
