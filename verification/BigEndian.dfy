/** The 16- and 24-bit big-endian fields of pkg/atls/ea/handshake.go. */
module BigEndian {
  type byte = x: int | 0 <= x < 256
  type uint16 = x: int | 0 <= x < 0x1_0000

  type Bytes = seq<byte>

  /** The first `n` bytes, or all of them. */
  function Beginning(b: Bytes, n: nat): Bytes {
    if n <= |b| then b[..n] else b
  }

  /** Writes the low 16 bits of `v`: a larger value is truncated, as the conversion to uint16 does. */
  function Put16(v: nat): (b: Bytes)
    ensures |b| == 2
  {
    [(v / 0x100) % 0x100, v % 0x100]
  }

  function Read16(b: Bytes): (v: nat)
    requires |b| == 2
    ensures v <= 0xFFFF
  {
    var hi: int, lo: int := b[0], b[1];
    hi * 0x100 + lo
  }

  /** Writes the low 24 bits of `v`. */
  function Put24(v: nat): (b: Bytes)
    ensures |b| == 3
  {
    [(v / 0x1_0000) % 0x100, (v / 0x100) % 0x100, v % 0x100]
  }

  function Read24(b: Bytes): (v: nat)
    requires |b| == 3
    ensures v <= 0xFF_FFFF
  {
    var hi: int, mid: int, lo: int := b[0], b[1], b[2];
    hi * 0x1_0000 + mid * 0x100 + lo
  }

  /** Reading gives back what was written exactly when it was not truncated. */
  lemma ReadPut16(v: nat)
    ensures Read16(Put16(v)) == v <==> v <= 0xFFFF
  {
    if v <= 0xFFFF {
      assert v / 0x100 < 0x100;
    }
  }

  lemma PutRead16(b: Bytes)
    requires |b| == 2
    ensures Put16(Read16(b)) == b
  {
    var v := Read16(b);
    assert v / 0x100 == b[0] && v % 0x100 == b[1];
  }

  lemma ReadPut24(v: nat)
    ensures Read24(Put24(v)) == v <==> v <= 0xFF_FFFF
  {
    if v <= 0xFF_FFFF {
      var h := v / 0x100;
      assert v / 0x1_0000 == h / 0x100;
      assert h / 0x100 < 0x100;
      assert h == (h / 0x100) * 0x100 + h % 0x100;
      assert v == h * 0x100 + v % 0x100;
    }
  }

  lemma PutRead24(b: Bytes)
    requires |b| == 3
    ensures Put24(Read24(b)) == b
  {
    var v := Read24(b);
    var hi: int, mid: int, lo: int := b[0], b[1], b[2];
    assert v == (hi * 0x100 + mid) * 0x100 + lo;
    assert v / 0x100 == hi * 0x100 + mid;
    assert v / 0x1_0000 == hi;
  }

  // ---------------------------------------------------------------- what the bytes stand for

  /** The number that bytes stand for, most significant first. */
  function Number(b: Bytes): nat {
    if b == [] then 0 else 256 * Number(b[..|b| - 1]) + b[|b| - 1]
  }

  lemma NumberOfTwo(b: Bytes)
    requires |b| == 2
    ensures Number(b) == Read16(b)
  {
    assert b[..1][..0] == [] && Number(b[..1]) == b[0];
  }

  lemma NumberOfThree(b: Bytes)
    requires |b| == 3
    ensures Number(b) == Read24(b)
  {
    NumberOfTwo(b[..2]);
  }

  /** The two bytes that stand for `v` are those that are written for it, if there are any. */
  lemma Put16Exactly(b: Bytes, v: nat)
    requires |b| == 2
    ensures Number(b) == v <==> v <= 0xFFFF && b == Put16(v)
  {
    NumberOfTwo(b);
    PutRead16(b);
    ReadPut16(v);
  }

  lemma Put24Exactly(b: Bytes, v: nat)
    requires |b| == 3
    ensures Number(b) == v <==> v <= 0xFF_FFFF && b == Put24(v)
  {
    NumberOfThree(b);
    PutRead24(b);
    ReadPut24(v);
  }
}
