/**
 * The byte streams of the codec (src/QOA.cs:153-176): the encoder writes to
 * an output `Stream`, the decoder reads from an input `Stream` and seeks in
 * it.
 *
 * `ByteSink` is an output stream: the bytes written so far. `ByteSource` is
 * an input stream over a byte buffer with a position; its `Read` copies as
 * many bytes as are left, up to the length of the destination.
 */
module QoaStream {
  import opened QoaInt
  import opened QoaWords

  // ----- Reading words -----

  /** The 8 bytes `qoa_read_u64` sees at `pos`: what is left of the data, then zeros. */
  function Peek8(data: seq<Byte>, pos: nat): (b: seq<Byte>)
    requires pos <= |data|
    ensures |b| == 8
  {
    if |data| - pos >= 8 then data[pos..pos + 8]
    else data[pos..] + seq(8 - (|data| - pos), _ => 0)
  }

  /** `qoa_read_u64` (src/QOA.cs:153-163): the word whose 8 big-endian bytes are the ones read at `pos`. */
  function ReadWord(data: seq<Byte>, pos: nat): (w: U64)
    requires pos <= |data|
    ensures BytesOf(w) == Peek8(data, pos)
  {
    WriteReadRoundTrip(Peek8(data, pos));
    WordOf(Peek8(data, pos))
  }

  /** The stream position after `qoa_read_u64` at `pos`. */
  function AfterRead(data: seq<Byte>, pos: nat): (p: nat)
    requires pos <= |data|
    ensures pos <= p <= |data|
    ensures p == pos + 8 || p == |data|
  {
    if |data| - pos >= 8 then pos + 8 else |data|
  }

  /** An output `Stream`. */
  class ByteSink {
    var data: seq<Byte>

    constructor ()
      ensures data == []
    {
      data := [];
    }

    /** `Stream.Write` of a whole buffer. */
    method Write(bytes: array<Byte>)
      modifies this
      ensures data == old(data) + bytes[..]
    {
      data := data + bytes[..];
    }
  }

  /** An input `Stream` over `data`, positioned at `pos`. */
  class ByteSource {
    const data: seq<Byte>
    var pos: nat

    ghost predicate Valid()
      reads this
    {
      pos <= |data|
    }

    constructor (data: seq<Byte>)
      ensures this.data == data && pos == 0 && Valid()
    {
      this.data := data;
      pos := 0;
    }

    /**
     * `Stream.Read` into `buf`: copies the next `n` bytes, where `n` is the
     * smaller of the buffer length and what is left, and leaves the rest of
     * `buf` as it was.
     */
    method Read(buf: array<Byte>) returns (n: nat)
      requires Valid()
      modifies this, buf
      ensures Valid()
      ensures n == if buf.Length <= |data| - old(pos) then buf.Length else |data| - old(pos)
      ensures pos == old(pos) + n
      ensures buf[..n] == data[old(pos)..pos] && buf[n..] == old(buf[n..])
    {
      n := if buf.Length <= |data| - pos then buf.Length else |data| - pos;
      var i := 0;
      while i < n
        invariant 0 <= i <= n <= buf.Length && pos == old(pos) && pos + n <= |data|
        invariant buf[..i] == data[pos..pos + i]
        invariant buf[n..] == old(buf[n..])
      {
        buf[i] := data[pos + i];
        i := i + 1;
      }
      pos := pos + n;
    }

    /**
     * `Stream.Seek(-8, SeekOrigin.Current)` (src/QOA.cs:391): moving in front
     * of the first byte fails.
     */
    method SeekBack8() returns (ok: bool)
      requires Valid()
      modifies this
      ensures Valid()
      ensures ok <==> old(pos) >= 8
      ensures pos == if ok then old(pos) - 8 else old(pos)
    {
      ok := pos >= 8;
      if ok {
        pos := pos - 8;
      }
    }
  }

  /** `qoa_read_u64` (src/QOA.cs:153-162): eight bytes into a zeroed buffer, most significant first. */
  method ReadU64(stream: ByteSource) returns (v: U64)
    requires stream.Valid()
    modifies stream
    ensures stream.Valid()
    ensures v == ReadWord(stream.data, old(stream.pos))
    ensures stream.pos == AfterRead(stream.data, old(stream.pos))
  {
    ghost var p := stream.pos;
    var bytes := new Byte[8](_ => 0);
    ghost var zeros := bytes[..];
    var n := stream.Read(bytes);
    assert bytes[..] == Peek8(stream.data, p) by {
      assert bytes[..] == bytes[..n] + bytes[n..];
      assert zeros[n..] == seq(8 - n, _ => 0);
    }
    WordOfDigits(bytes[..]);
    v := bytes[0] as int * 0x100_0000_0000_0000 + bytes[1] as int * 0x1_0000_0000_0000
      + bytes[2] as int * 0x100_0000_0000 + bytes[3] as int * 0x1_0000_0000
      + bytes[4] as int * 0x100_0000 + bytes[5] as int * 0x1_0000
      + bytes[6] as int * 0x100 + bytes[7] as int;
  }

  /** `qoa_write_u64` (src/QOA.cs:164-176): the eight bytes of `v`, most significant first. */
  method WriteU64(v: U64, stream: ByteSink)
    modifies stream
    ensures stream.data == old(stream.data) + BytesOf(v)
  {
    var bytes := new Byte[8];
    bytes[0] := v / 0x100_0000_0000_0000 % 0x100;
    bytes[1] := v / 0x1_0000_0000_0000 % 0x100;
    bytes[2] := v / 0x100_0000_0000 % 0x100;
    bytes[3] := v / 0x1_0000_0000 % 0x100;
    bytes[4] := v / 0x100_0000 % 0x100;
    bytes[5] := v / 0x1_0000 % 0x100;
    bytes[6] := v / 0x100 % 0x100;
    bytes[7] := v % 0x100;
    BytesOfDigits(v);
    assert bytes[..] == BytesOf(v);
    stream.Write(bytes);
  }

  /** Byte `i` of `BytesBE(v, n)` is `(v >> 8 * (n - 1 - i)) & 0xff`. */
  lemma {:induction false} BytesBEAt(v: nat, n: nat, i: nat)
    requires i < n
    ensures BytesBE(v, n)[i] == v / Pow256(n - 1 - i) % 256
    decreases n
  {
    if i < n - 1 {
      BytesBEAt(v / 256, n - 1, i);
      DivDiv(v, 256, Pow256(n - 2 - i));
    }
  }

  /** `a / b / c == a / (b * c)` for positive divisors. */
  lemma DivDiv(a: nat, b: nat, c: nat)
    requires b > 0 && c > 0
    ensures a / b / c == a / (b * c)
  {
    var q, r := a / b, a % b;
    var q2, r2 := q / c, q % c;
    assert a == b * (c * q2 + r2) + r;
    assert a == (b * c) * q2 + (b * r2 + r);
    MulMono(r2, c - 1, b);
    assert b * r2 + r < b * c;
    ModAbove(q2, b * r2 + r, b * c);
  }

  /** The bytes `qoa_write_u64` writes, spelled out. */
  lemma BytesOfDigits(v: U64)
    ensures BytesOf(v) == [v / 0x100_0000_0000_0000 % 0x100, v / 0x1_0000_0000_0000 % 0x100,
      v / 0x100_0000_0000 % 0x100, v / 0x1_0000_0000 % 0x100, v / 0x100_0000 % 0x100,
      v / 0x1_0000 % 0x100, v / 0x100 % 0x100, v % 0x100]
  {
    assert Pow256(7) == 0x100_0000_0000_0000;
    BytesBEAt(v, WORD_BYTES, 0);
    BytesBEAt(v, WORD_BYTES, 1);
    BytesBEAt(v, WORD_BYTES, 2);
    BytesBEAt(v, WORD_BYTES, 3);
    BytesBEAt(v, WORD_BYTES, 4);
    BytesBEAt(v, WORD_BYTES, 5);
    BytesBEAt(v, WORD_BYTES, 6);
    BytesBEAt(v, WORD_BYTES, 7);
  }

  /** The value of a prefix grows by one byte at a time. */
  lemma ValueBEPrefix(b: seq<Byte>, k: nat)
    requires k < |b|
    ensures ValueBE(b[..k + 1]) == ValueBE(b[..k]) * 256 + b[k]
  {
    assert b[..k + 1][..k] == b[..k];
  }

  /** The word `qoa_read_u64` assembles: the OR of the eight bytes shifted into place. */
  lemma WordOfDigits(b: seq<Byte>)
    requires |b| == 8
    ensures WordOf(b) == b[0] as int * 0x100_0000_0000_0000 + b[1] as int * 0x1_0000_0000_0000
      + b[2] as int * 0x100_0000_0000 + b[3] as int * 0x1_0000_0000
      + b[4] as int * 0x100_0000 + b[5] as int * 0x1_0000
      + b[6] as int * 0x100 + b[7] as int
  {
    assert b[..0] == [];
    ValueBEPrefix(b, 0);
    ValueBEPrefix(b, 1);
    ValueBEPrefix(b, 2);
    ValueBEPrefix(b, 3);
    ValueBEPrefix(b, 4);
    ValueBEPrefix(b, 5);
    ValueBEPrefix(b, 6);
    ValueBEPrefix(b, 7);
    assert b[..8] == b;
  }
}
