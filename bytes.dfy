/** The byte level under the database file: octets, the one-byte-per-
    character text codec, big-endian signed numbers, and
    `java.io.RandomAccessFile` as a byte sequence with a file pointer. */
module Bytes {
  import opened Wrappers

  /** An octet of the file, read as an unsigned value. */
  type byte = b: int | 0 <= b < 256

  /** What a read or a seek of `RandomAccessFile` can fail with. */
  datatype IoError =
    | EndOfFile           // EOFException
    | NegativeSeekOffset  // IOException from seek(pos) with pos < 0
    | DeviceFailure       // any other IOException of the device

  // ---------------------------------------------------------------------
  // Text: one byte per character (ISO-8859-1)
  // ---------------------------------------------------------------------

  function DecodeChar(b: byte): char {
    b as char
  }

  /** `String.getBytes` for one character: characters outside the one-byte
      range are written as '?'. */
  function EncodeChar(c: char): byte {
    if (c as int) < 256 then c as int else '?' as int
  }

  /** `new String(bytes)`. */
  function DecodeString(bs: seq<byte>): (s: string)
    ensures |s| == |bs|
  {
    seq(|bs|, i requires 0 <= i < |bs| => DecodeChar(bs[i]))
  }

  /** `String.getBytes()`. */
  function EncodeString(s: string): (bs: seq<byte>)
    ensures |bs| == |s|
  {
    seq(|s|, i requires 0 <= i < |s| => EncodeChar(s[i]))
  }

  /** Every character fits in one byte. */
  predicate Latin1(s: string) {
    forall i :: 0 <= i < |s| ==> (s[i] as int) < 256
  }

  lemma DecodeEncode(s: string)
    requires Latin1(s)
    ensures DecodeString(EncodeString(s)) == s
  {
  }

  lemma EncodeDecode(bs: seq<byte>)
    ensures EncodeString(DecodeString(bs)) == bs
  {
  }

  /** Decoded bytes always fit in one byte each. */
  lemma DecodedIsLatin1(bs: seq<byte>)
    ensures Latin1(DecodeString(bs))
  {
  }

  // ---------------------------------------------------------------------
  // Big-endian signed numbers (DataInput)
  // ---------------------------------------------------------------------

  /** `readByte`: a signed byte. */
  function SignedByte(b: byte): int {
    if b < 128 then b else b - 256
  }

  /** `readShort` of two bytes. */
  function ShortOf(b0: byte, b1: byte): (v: int)
    ensures -32768 <= v < 32768
  {
    var u := (b0 as int) * 256 + b1;
    if u < 32768 then u else u - 65536
  }

  /** `readInt` of four bytes. */
  function IntOf(b0: byte, b1: byte, b2: byte, b3: byte): (v: int)
    ensures -0x8000_0000 <= v < 0x8000_0000
  {
    var u := (b0 as int) * 0x100_0000 + (b1 as int) * 0x1_0000 + (b2 as int) * 0x100 + b3;
    if u < 0x8000_0000 then u else u - 0x1_0000_0000
  }

  /** `writeShort` of a non-negative short. */
  function ShortBytes(v: nat): (bs: seq<byte>)
    requires v < 32768
    ensures |bs| == 2 && ShortOf(bs[0], bs[1]) == v
  {
    [v / 256, v % 256]
  }

  /** Two bytes of an unsigned 16-bit value, high byte first. */
  function UShortBytes(u: nat): (bs: seq<byte>)
    requires u < 0x1_0000
    ensures |bs| == 2 && (bs[0] as int) * 256 + bs[1] == u
  {
    [u / 256, u % 256]
  }

  /** `writeInt` of a non-negative int. */
  function IntBytes(v: nat): (bs: seq<byte>)
    requires v < 0x8000_0000
    ensures |bs| == 4 && IntOf(bs[0], bs[1], bs[2], bs[3]) == v
  {
    var hi := UShortBytes(v / 0x1_0000);
    var lo := UShortBytes(v % 0x1_0000);
    hi + lo
  }

  /** A short read as a non-negative value came from exactly those bytes. */
  lemma ShortBytesOf(b0: byte, b1: byte)
    requires ShortOf(b0, b1) >= 0
    ensures ShortBytes(ShortOf(b0, b1)) == [b0, b1]
  {
    DivMod256((b0 as int) * 256 + b1, b0, b1);
  }

  /** An int read as a non-negative value came from exactly those bytes. */
  lemma IntBytesOf(b0: byte, b1: byte, b2: byte, b3: byte)
    requires IntOf(b0, b1, b2, b3) >= 0
    ensures IntBytes(IntOf(b0, b1, b2, b3)) == [b0, b1, b2, b3]
  {
    var hi := (b0 as int) * 256 + b1;
    var lo := (b2 as int) * 256 + b3;
    var v := IntOf(b0, b1, b2, b3);
    assert v == hi * 0x1_0000 + lo;
    DivMod65536(v, hi, lo);
    DivMod256(hi, b0, b1);
    DivMod256(lo, b2, b3);
  }

  lemma DivMod256(u: int, q: int, r: int)
    requires 0 <= r < 256 && u == q * 256 + r
    ensures u / 256 == q && u % 256 == r
  {
  }

  lemma DivMod65536(u: int, q: int, r: int)
    requires 0 <= r < 0x1_0000 && u == q * 0x1_0000 + r
    ensures u / 0x1_0000 == q && u % 0x1_0000 == r
  {
  }

  // ---------------------------------------------------------------------
  // Reading and writing at a position
  // ---------------------------------------------------------------------

  /** `read(byte[k])` at position `p`: the bytes that are there, and zeros
      where the file ends (the array keeps its initial zeros). */
  function ReadAt(c: seq<byte>, p: nat, k: nat): (r: seq<byte>)
    ensures |r| == k
  {
    seq(k, i requires 0 <= i < k => if p + i < |c| then c[p + i] else 0)
  }

  /** Where the file pointer is after `read(byte[k])` from `p`: it moves by
      the number of bytes actually read. */
  function Advance(c: seq<byte>, p: nat, k: nat): (q: nat)
    ensures p <= q <= p + k
    ensures q < p + k ==> q >= |c|
  {
    if p >= |c| then p else if p + k <= |c| then p + k else |c|
  }

  /** `readShort` at `p`; `None` is the EOFException. */
  function ReadShortAt(c: seq<byte>, p: nat): (r: Option<int>)
    ensures r.Some? <==> p + 2 <= |c|
  {
    if p + 2 <= |c| then Some(ShortOf(c[p], c[p + 1])) else None
  }

  /** `readInt` at `p`; `None` is the EOFException. */
  function ReadIntAt(c: seq<byte>, p: nat): (r: Option<int>)
    ensures r.Some? <==> p + 4 <= |c|
  {
    if p + 4 <= |c| then Some(IntOf(c[p], c[p + 1], c[p + 2], c[p + 3])) else None
  }

  /** `write(bs)` at `p`: the bytes are overwritten or appended; writing
      beyond the end leaves a zero gap. */
  function WriteAt(c: seq<byte>, p: nat, bs: seq<byte>): (r: seq<byte>)
    ensures |r| == if |c| < p + |bs| then p + |bs| else |c|
  {
    var n := if |c| < p + |bs| then p + |bs| else |c|;
    seq(n, i requires 0 <= i < n => if p <= i < p + |bs| then bs[i - p] else if i < |c| then c[i] else 0)
  }

  /** Reading right after a read of `a` bytes is reading `a` bytes further,
      even when the first read ran into the end of the file. */
  lemma ReadAfterAdvance(c: seq<byte>, p: nat, a: nat, b: nat)
    ensures ReadAt(c, Advance(c, p, a), b) == ReadAt(c, p + a, b)
  {
  }

  lemma AdvanceAdvance(c: seq<byte>, p: nat, a: nat, b: nat)
    ensures Advance(c, Advance(c, p, a), b) == Advance(c, p, a + b)
  {
  }

  /** Two consecutive writes are one write of both. */
  /** Byte `i` after a write: from the written bytes inside them, from the
      file before them, zero in a gap past the old end. */
  lemma WriteAtByte(c: seq<byte>, p: nat, bs: seq<byte>, i: nat)
    requires i < |WriteAt(c, p, bs)|
    ensures WriteAt(c, p, bs)[i] == if p <= i < p + |bs| then bs[i - p] else if i < |c| then c[i] else 0
  {
  }

  lemma WriteAtConcat(c: seq<byte>, p: nat, a: seq<byte>, b: seq<byte>)
    ensures WriteAt(WriteAt(c, p, a), p + |a|, b) == WriteAt(c, p, a + b)
  {
    var l := WriteAt(WriteAt(c, p, a), p + |a|, b);
    var r := WriteAt(c, p, a + b);
    assert |l| == |r|;
    forall i | 0 <= i < |l|
      ensures l[i] == r[i]
    {
    }
  }

  /** What was just written reads back. */
  lemma ReadAtWritten(c: seq<byte>, p: nat, bs: seq<byte>, q: nat, k: nat)
    requires p <= q && q + k <= p + |bs|
    ensures ReadAt(WriteAt(c, p, bs), q, k) == bs[q - p..q - p + k]
  {
  }

  // ---------------------------------------------------------------------
  // The file
  // ---------------------------------------------------------------------

  /** `java.io.RandomAccessFile`: the file's bytes and the file pointer. */
  class RandomAccessFile {
    var contents: seq<byte>
    var pointer: nat

    /** Opening a file puts the pointer at its start. */
    constructor (contents: seq<byte>)
      ensures this.contents == contents && pointer == 0
    {
      this.contents := contents;
      pointer := 0;
    }

    /** `seek(pos)`: a negative offset is refused; an offset beyond the end
        is allowed. */
    method Seek(pos: int) returns (r: Outcome<IoError>)
      modifies this
      ensures contents == old(contents)
      ensures pos < 0 ==> r == Fail(NegativeSeekOffset) && pointer == old(pointer)
      ensures pos >= 0 ==> r == Pass && pointer == pos
    {
      if pos < 0 {
        return Fail(NegativeSeekOffset);
      }
      pointer := pos;
      r := Pass;
    }

    method ReadByte() returns (r: Result<int, IoError>)
      modifies this
      ensures contents == old(contents)
      ensures old(pointer) < |contents| ==>
                r == Ok(SignedByte(contents[old(pointer)])) && pointer == old(pointer) + 1
      ensures old(pointer) >= |contents| ==> r == Err(EndOfFile) && pointer == old(pointer)
    {
      if pointer >= |contents| {
        return Err(EndOfFile);
      }
      r := Ok(SignedByte(contents[pointer]));
      pointer := pointer + 1;
    }

    /** `readShort`: on EOF the pointer has passed the bytes there were. */
    method ReadShort() returns (r: Result<int, IoError>)
      modifies this
      ensures contents == old(contents)
      ensures ReadShortAt(contents, old(pointer)).Some? ==>
                r == Ok(ReadShortAt(contents, old(pointer)).value) && pointer == old(pointer) + 2
      ensures ReadShortAt(contents, old(pointer)).None? ==>
                r == Err(EndOfFile) && pointer == Advance(contents, old(pointer), 2)
    {
      if pointer + 2 > |contents| {
        pointer := Advance(contents, pointer, 2);
        return Err(EndOfFile);
      }
      r := Ok(ShortOf(contents[pointer], contents[pointer + 1]));
      pointer := pointer + 2;
    }

    method ReadInt() returns (r: Result<int, IoError>)
      modifies this
      ensures contents == old(contents)
      ensures ReadIntAt(contents, old(pointer)).Some? ==>
                r == Ok(ReadIntAt(contents, old(pointer)).value) && pointer == old(pointer) + 4
      ensures ReadIntAt(contents, old(pointer)).None? ==>
                r == Err(EndOfFile) && pointer == Advance(contents, old(pointer), 4)
    {
      if pointer + 4 > |contents| {
        pointer := Advance(contents, pointer, 4);
        return Err(EndOfFile);
      }
      r := Ok(IntOf(contents[pointer], contents[pointer + 1], contents[pointer + 2], contents[pointer + 3]));
      pointer := pointer + 4;
    }

    /** `read(new byte[k])`. */
    method Read(k: nat) returns (bytes: seq<byte>)
      modifies this
      ensures contents == old(contents)
      ensures bytes == ReadAt(contents, old(pointer), k)
      ensures pointer == Advance(contents, old(pointer), k)
    {
      bytes := ReadAt(contents, pointer, k);
      pointer := Advance(contents, pointer, k);
    }

    /** `writeByte(v)`: the low eight bits of `v`. */
    method WriteByte(v: int)
      modifies this
      ensures contents == WriteAt(old(contents), old(pointer), [v % 256])
      ensures pointer == old(pointer) + 1
    {
      contents := WriteAt(contents, pointer, [v % 256]);
      pointer := pointer + 1;
    }

    method Write(bs: seq<byte>)
      modifies this
      ensures contents == WriteAt(old(contents), old(pointer), bs)
      ensures pointer == old(pointer) + |bs|
    {
      contents := WriteAt(contents, pointer, bs);
      pointer := pointer + |bs|;
    }
  }
}
