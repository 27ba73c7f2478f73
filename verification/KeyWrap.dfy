/**
 The AES key unwrap of pkg/crypto/decrypt.go, over an arbitrary 16-byte block function.

 `Wrap` is the wrapping direction of section 2.2.1 of RFC 3394, which the program does not
 contain: it is the independent reference that `UnwrapKey` is measured against.
 */
module KeyWrap {
  import opened Results
  import opened BigEndian

  type Octets = Bytes

  /** A keyed block function: key, then block. */
  type BlockFn = (Octets, Octets) -> Octets

  datatype Error = InvalidKey | DecryptionFailed

  /** The integrity register A and the data registers R[1..n] (held here as r[0..n-1]). */
  datatype Registers = Registers(a: Octets, r: seq<Octets>)

  const IV: Octets := [0xA6, 0xA6, 0xA6, 0xA6, 0xA6, 0xA6, 0xA6, 0xA6]

  /** The key lengths that the block cipher accepts. */
  predicate CipherKey(kek: Octets) {
    |kek| == 16 || |kek| == 24 || |kek| == 32
  }

  ghost predicate KeepsBlockSize(F: BlockFn, kek: Octets) {
    forall b: Octets :: |b| == 16 ==> |F(kek, b)| == 16
  }

  /** `F` undoes `G` on the block `b`. */
  ghost predicate Undoes(F: BlockFn, G: BlockFn, kek: Octets, b: Octets) {
    F(kek, G(kek, b)) == b
  }

  ghost predicate Inverse(E: BlockFn, D: BlockFn, kek: Octets) {
    && KeepsBlockSize(E, kek)
    && KeepsBlockSize(D, kek)
    && (forall b: Octets :: |b| == 16 ==> Undoes(D, E, kek, b))
    && (forall b: Octets :: |b| == 16 ==> Undoes(E, D, kek, b))
  }

  ghost predicate WellFormed(s: Registers) {
    && |s.a| == 8
    && (forall i :: 0 <= i < |s.r| ==> |s.r[i]| == 8)
  }

  // ---------------------------------------------------------------- exclusive or

  function Pow2(n: nat): (p: nat)
    ensures p > 0
  {
    if n == 0 then 1 else 2 * Pow2(n - 1)
  }

  /** Exclusive or of the low `n` bits. */
  function XorBits(x: nat, y: nat, n: nat): (r: nat)
    ensures r < Pow2(n)
  {
    if n == 0 then 0 else 2 * XorBits(x / 2, y / 2, n - 1) + if x % 2 == y % 2 then 0 else 1
  }

  function XorByte(x: byte, y: byte): byte {
    assert Pow2(8) == 256;
    XorBits(x, y, 8)
  }

  /** `x` shifted right by `k` bits. */
  function Halved(x: nat, k: nat): nat {
    if k == 0 then x else Halved(x / 2, k - 1)
  }

  /** A bit is set in the result exactly when it is set in one of the two and not in the other. */
  lemma {:induction false} XorBitAt(x: nat, y: nat, n: nat, k: nat)
    requires k < n
    ensures Halved(XorBits(x, y, n), k) % 2 == 1 <==> Halved(x, k) % 2 != Halved(y, k) % 2
    decreases n
  {
    var r := XorBits(x, y, n);
    assert r / 2 == XorBits(x / 2, y / 2, n - 1) && (r % 2 == 1 <==> x % 2 != y % 2);
    if k > 0 {
      XorBitAt(x / 2, y / 2, n - 1, k - 1);
    }
  }

  lemma {:induction false} XorBitsTwice(x: nat, y: nat, n: nat)
    requires x < Pow2(n)
    ensures XorBits(XorBits(x, y, n), y, n) == x
    decreases n
  {
    if n > 0 {
      var r := XorBits(x, y, n);
      assert r / 2 == XorBits(x / 2, y / 2, n - 1) && (r % 2 == 1 <==> x % 2 != y % 2);
      XorBitsTwice(x / 2, y / 2, n - 1);
    }
  }

  lemma XorTwice(x: byte, y: byte)
    ensures XorByte(XorByte(x, y), y) == x
  {
    assert Pow2(8) == 256;
    XorBitsTwice(x, y, 8);
  }

  lemma {:induction false} XorBitsAssociates(x: nat, y: nat, z: nat, n: nat)
    ensures XorBits(XorBits(x, y, n), z, n) == XorBits(x, XorBits(y, z, n), n)
    decreases n
  {
    if n > 0 {
      var r, q := XorBits(x, y, n), XorBits(y, z, n);
      assert r / 2 == XorBits(x / 2, y / 2, n - 1) && (r % 2 == 1 <==> x % 2 != y % 2);
      assert q / 2 == XorBits(y / 2, z / 2, n - 1) && (q % 2 == 1 <==> y % 2 != z % 2);
      XorBitsAssociates(x / 2, y / 2, z / 2, n - 1);
    }
  }

  lemma XorAssociates(x: byte, y: byte, z: byte)
    ensures XorByte(XorByte(x, y), z) == XorByte(x, XorByte(y, z))
  {
    XorBitsAssociates(x, y, z, 8);
  }

  lemma {:induction false} XorBitsZero(x: nat, n: nat)
    requires x < Pow2(n)
    ensures XorBits(x, 0, n) == x && XorBits(0, x, n) == x
    decreases n
  {
    if n > 0 {
      XorBitsZero(x / 2, n - 1);
    }
  }

  lemma XorZero(x: byte)
    ensures XorByte(x, 0) == x && XorByte(0, x) == x
  {
    assert Pow2(8) == 256;
    XorBitsZero(x, 8);
  }

  // ---------------------------------------------------------------- the step counter

  function Pow256(k: nat): (p: nat)
    ensures p > 0
  {
    if k == 0 then 1 else 256 * Pow256(k - 1)
  }

  /** `t` shifted right by `k` bytes. */
  function Shifted(t: nat, k: nat): nat {
    if k == 0 then t else Shifted(t / 256, k - 1)
  }

  /** Byte `k` of the 64-bit big-endian counter `t`; wrapping `t` at 2^64 would not change it. */
  function CounterByte(t: nat, k: nat): byte
    requires k < 8
  {
    Shifted(t, 7 - k) % 256
  }

  function XorCounter(a: Octets, t: nat): (x: Octets)
    requires |a| == 8
    ensures |x| == 8
    ensures forall k :: 0 <= k < 8 ==> x[k] == XorByte(a[k], CounterByte(t, k))
  {
    seq(8, k requires 0 <= k < 8 => XorByte(a[k], CounterByte(t, k)))
  }

  /** The low `n` bytes of `t`, most significant first: the reference's counter. */
  function Digits(t: nat, n: nat): (b: Octets)
    ensures |b| == n
  {
    if n == 0 then [] else Digits(t / 256, n - 1) + [t % 256]
  }

  function Xor(a: Octets, b: Octets): (x: Octets)
    requires |a| == |b|
    ensures |x| == |a|
  {
    seq(|a|, k requires 0 <= k < |a| => XorByte(a[k], b[k]))
  }

  lemma {:induction false} DigitAt(t: nat, n: nat, k: nat)
    requires k < n
    ensures Digits(t, n)[k] == Shifted(t, n - 1 - k) % 256
    decreases n
  {
    if k < n - 1 {
      DigitAt(t / 256, n - 1, k);
    }
  }

  lemma {:induction false} NumberOfDigits(t: nat, n: nat)
    requires t < Pow256(n)
    ensures Number(Digits(t, n)) == t
    decreases n
  {
    if n > 0 {
      var b := Digits(t, n);
      assert b[..n - 1] == Digits(t / 256, n - 1);
      NumberOfDigits(t / 256, n - 1);
    }
  }

  const ZEROS: Octets := [0, 0, 0, 0, 0, 0, 0, 0]

  /** What the program xors into A is the step number in 64 bits, big-endian. */
  lemma CounterIsBigEndian(a: Octets, t: nat)
    requires |a| == 8
    ensures XorCounter(a, t) == Xor(a, Digits(t, 8))
    ensures t < Pow256(8) ==> Number(XorCounter(ZEROS, t)) == t
  {
    forall x: Octets | |x| == 8
      ensures XorCounter(x, t) == Xor(x, Digits(t, 8))
    {
      forall k | 0 <= k < 8
        ensures XorCounter(x, t)[k] == Xor(x, Digits(t, 8))[k]
      {
        DigitAt(t, 8, k);
      }
    }
    if t < Pow256(8) {
      NumberOfDigits(t, 8);
      XorZeros(Digits(t, 8));
    }
  }

  lemma XorZeros(b: Octets)
    requires |b| == 8
    ensures Xor(ZEROS, b) == b
  {
    forall k | 0 <= k < 8
      ensures Xor(ZEROS, b)[k] == b[k]
    {
      XorZero(b[k]);
    }
  }

  lemma XorCounterTwice(a: Octets, t: nat)
    requires |a| == 8
    ensures XorCounter(XorCounter(a, t), t) == a
  {
    forall k | 0 <= k < 8
      ensures XorCounter(XorCounter(a, t), t)[k] == a[k]
    {
      XorTwice(a[k], CounterByte(t, k));
    }
  }

  // ---------------------------------------------------------------- one step, and all of them

  /** The data register that step `t` of `6 * n` works on: t - 1 modulo n. */
  function Slot(n: nat, t: nat): (i: nat)
    requires n > 0 && t > 0
    ensures i < n
  {
    if t <= n then t - 1 else Slot(n, t - n)
  }

  /**
   Step `t` of section 2.2.1 of RFC 3394: B = E(A | R[i]); A = MSB(B) ^ t; R[i] = LSB(B). The number t
   stands there in 64 bits, most significant byte first.
   */
  function WrapStep(E: BlockFn, kek: Octets, t: nat, s: Registers): (s': Registers)
    requires KeepsBlockSize(E, kek) && WellFormed(s) && |s.r| > 0 && t > 0
    ensures WellFormed(s') && |s'.r| == |s.r|
  {
    var i := Slot(|s.r|, t);
    var b := E(kek, s.a + s.r[i]);
    Registers(Xor(b[..8], Digits(t, 8)), s.r[i := b[8..]])
  }

  /** Step `t` of section 2.2.2 of RFC 3394: B = D((A ^ t) | R[i]); A = MSB(B); R[i] = LSB(B). */
  function UnwrapStep(D: BlockFn, kek: Octets, t: nat, s: Registers): (s': Registers)
    requires KeepsBlockSize(D, kek) && WellFormed(s) && |s.r| > 0 && t > 0
    ensures WellFormed(s') && |s'.r| == |s.r|
  {
    var i := Slot(|s.r|, t);
    var b := D(kek, XorCounter(s.a, t) + s.r[i]);
    Registers(b[..8], s.r[i := b[8..]])
  }

  /** Steps 1, 2, ..., t. */
  function WrapSteps(E: BlockFn, kek: Octets, t: nat, s: Registers): (s': Registers)
    requires KeepsBlockSize(E, kek) && WellFormed(s) && |s.r| > 0
    ensures WellFormed(s') && |s'.r| == |s.r|
  {
    if t == 0 then s else WrapStep(E, kek, t, WrapSteps(E, kek, t - 1, s))
  }

  /** Steps t, t-1, ..., 1. */
  function UnwrapSteps(D: BlockFn, kek: Octets, t: nat, s: Registers): (s': Registers)
    requires KeepsBlockSize(D, kek) && WellFormed(s) && |s.r| > 0
    ensures WellFormed(s') && |s'.r| == |s.r|
  {
    if t == 0 then s else UnwrapSteps(D, kek, t - 1, UnwrapStep(D, kek, t, s))
  }

  lemma UnwrapStepUndoesWrapStep(E: BlockFn, D: BlockFn, kek: Octets, t: nat, s: Registers)
    requires Inverse(E, D, kek) && WellFormed(s) && |s.r| > 0 && t > 0
    ensures UnwrapStep(D, kek, t, WrapStep(E, kek, t, s)) == s
  {
    var i := Slot(|s.r|, t);
    var b := E(kek, s.a + s.r[i]);
    assert Undoes(D, E, kek, s.a + s.r[i]);
    CounterIsBigEndian(b[..8], t);
    XorCounterTwice(b[..8], t);
    assert b[..8] + b[8..] == b;
  }

  lemma WrapStepUndoesUnwrapStep(E: BlockFn, D: BlockFn, kek: Octets, t: nat, s: Registers)
    requires Inverse(E, D, kek) && WellFormed(s) && |s.r| > 0 && t > 0
    ensures WrapStep(E, kek, t, UnwrapStep(D, kek, t, s)) == s
  {
    var i := Slot(|s.r|, t);
    var x := XorCounter(s.a, t) + s.r[i];
    var b := D(kek, x);
    assert Undoes(E, D, kek, x);
    XorCounterTwice(s.a, t);
    CounterIsBigEndian(XorCounter(s.a, t), t);
    assert b[..8] + b[8..] == b;
    assert x[..8] == XorCounter(s.a, t) && x[8..] == s.r[i];
  }

  lemma {:induction false} UnwrapUndoesWrap(E: BlockFn, D: BlockFn, kek: Octets, t: nat, s: Registers)
    requires Inverse(E, D, kek) && WellFormed(s) && |s.r| > 0
    ensures UnwrapSteps(D, kek, t, WrapSteps(E, kek, t, s)) == s
  {
    hide WrapStep, UnwrapStep;
    if t > 0 {
      UnwrapStepUndoesWrapStep(E, D, kek, t, WrapSteps(E, kek, t - 1, s));
      UnwrapUndoesWrap(E, D, kek, t - 1, s);
    }
  }

  lemma {:induction false} WrapUndoesUnwrap(E: BlockFn, D: BlockFn, kek: Octets, t: nat, s: Registers)
    requires Inverse(E, D, kek) && WellFormed(s) && |s.r| > 0
    ensures WrapSteps(E, kek, t, UnwrapSteps(D, kek, t, s)) == s
  {
    hide WrapStep, UnwrapStep;
    if t > 0 {
      WrapUndoesUnwrap(E, D, kek, t - 1, UnwrapStep(D, kek, t, s));
      WrapStepUndoesUnwrapStep(E, D, kek, t, s);
    }
  }

  // ---------------------------------------------------------------- bytes and 64-bit blocks

  function Blocks(bytes: Octets): (bs: seq<Octets>)
    requires |bytes| % 8 == 0
    ensures |bytes| == 8 * |bs|
    ensures forall i :: 0 <= i < |bs| ==> |bs[i]| == 8
  {
    if bytes == [] then [] else [bytes[..8]] + Blocks(bytes[8..])
  }

  function Flatten(bs: seq<Octets>): (bytes: Octets)
    requires forall i :: 0 <= i < |bs| ==> |bs[i]| == 8
    ensures |bytes| == 8 * |bs|
  {
    if bs == [] then [] else bs[0] + Flatten(bs[1..])
  }

  lemma {:induction false} FlattenBlocks(bytes: Octets)
    requires |bytes| % 8 == 0
    ensures Flatten(Blocks(bytes)) == bytes
    decreases |bytes|
  {
    if bytes != [] {
      FlattenBlocks(bytes[8..]);
      assert Blocks(bytes)[1..] == Blocks(bytes[8..]);
      assert bytes == bytes[..8] + bytes[8..];
    }
  }

  lemma {:induction false} BlocksFlatten(bs: seq<Octets>)
    requires forall i :: 0 <= i < |bs| ==> |bs[i]| == 8
    ensures Blocks(Flatten(bs)) == bs
    decreases |bs|
  {
    if bs != [] {
      BlocksFlatten(bs[1..]);
      assert Flatten(bs)[..8] == bs[0];
      assert Flatten(bs)[8..] == Flatten(bs[1..]);
      assert [bs[0]] + bs[1..] == bs;
    }
  }

  lemma {:induction false} BlockAt(bytes: Octets, i: nat)
    requires |bytes| % 8 == 0 && i < |Blocks(bytes)|
    ensures Blocks(bytes)[i] == bytes[8 * i..8 * i + 8]
    decreases i
  {
    if i > 0 {
      BlockAt(bytes[8..], i - 1);
      assert bytes[8..][8 * (i - 1)..8 * (i - 1) + 8] == bytes[8 * i..8 * i + 8];
    }
  }

  lemma {:induction false} FlattenSnoc(bs: seq<Octets>, b: Octets)
    requires |b| == 8 && forall i :: 0 <= i < |bs| ==> |bs[i]| == 8
    ensures Flatten(bs + [b]) == Flatten(bs) + b
    decreases |bs|
  {
    if bs == [] {
      assert (bs + [b])[1..] == [];
    } else {
      FlattenSnoc(bs[1..], b);
      assert (bs + [b])[1..] == bs[1..] + [b];
    }
  }

  /** The registers as bytes: A, then R[1], ..., R[n]. */
  function Pack(s: Registers): (bytes: Octets)
    requires WellFormed(s)
    ensures |bytes| == 8 * (|s.r| + 1)
  {
    s.a + Flatten(s.r)
  }

  function Unpack(bytes: Octets): (s: Registers)
    requires |bytes| % 8 == 0 && |bytes| >= 8
    ensures WellFormed(s) && |bytes| == 8 * (|s.r| + 1)
  {
    Registers(bytes[..8], Blocks(bytes[8..]))
  }

  lemma UnpackPack(s: Registers)
    requires WellFormed(s)
    ensures Unpack(Pack(s)) == s
  {
    assert Pack(s)[..8] == s.a && Pack(s)[8..] == Flatten(s.r);
    BlocksFlatten(s.r);
  }

  lemma PackUnpack(bytes: Octets)
    requires |bytes| % 8 == 0 && |bytes| >= 8
    ensures Pack(Unpack(bytes)) == bytes
  {
    FlattenBlocks(bytes[8..]);
    assert bytes[..8] + bytes[8..] == bytes;
  }

  // ---------------------------------------------------------------- the whole operation

  /** Section 2.2.1 of RFC 3394 on bytes: `n >= 2` plaintext blocks give `n + 1` blocks. */
  function Wrap(E: BlockFn, kek: Octets, plain: Octets): (wrapped: Octets)
    requires KeepsBlockSize(E, kek) && |plain| % 8 == 0 && |plain| >= 16
    ensures |wrapped| == |plain| + 8
  {
    var s := Registers(IV, Blocks(plain));
    Pack(WrapSteps(E, kek, 6 * |s.r|, s))
  }

  /** What `UnwrapKey` computes, as a function of the bytes alone. */
  function Unwrap(D: BlockFn, kek: Octets, wrapped: Octets): (res: Result<Octets, Error>)
    requires KeepsBlockSize(D, kek)
  {
    if |wrapped| % 8 != 0 || |wrapped| < 24 then
      Err(InvalidKey)
    else if !CipherKey(kek) then
      Err(DecryptionFailed)
    else
      var s := Unpack(wrapped);
      Recovered(UnwrapSteps(D, kek, 6 * |s.r|, s))
  }

  /** The integrity check on the final registers. */
  function Recovered(s: Registers): (res: Result<Octets, Error>)
    requires WellFormed(s)
  {
    if s.a == IV then Ok(Flatten(s.r)) else Err(DecryptionFailed)
  }

  /** Unwrapping a wrapped key gives the key back, for every cipher, key and plaintext. */
  lemma UnwrapOfWrap(E: BlockFn, D: BlockFn, kek: Octets, plain: Octets)
    requires Inverse(E, D, kek) && CipherKey(kek) && |plain| % 8 == 0 && |plain| >= 16
    ensures Unwrap(D, kek, Wrap(E, kek, plain)) == Ok(plain)
  {
    hide WrapSteps, UnwrapSteps, Blocks, Flatten, KeepsBlockSize, Undoes, Unpack, Pack;
    var s0 := Registers(IV, Blocks(plain));
    var t := 6 * |s0.r|;
    UnpackPack(WrapSteps(E, kek, t, s0));
    UnwrapUndoesWrap(E, D, kek, t, s0);
    FlattenBlocks(plain);
  }

  /** Whatever unwraps is the wrapping of what it unwraps to, and is 8 bytes longer than it. */
  lemma WrapOfUnwrap(E: BlockFn, D: BlockFn, kek: Octets, wrapped: Octets)
    requires Inverse(E, D, kek) && Unwrap(D, kek, wrapped).Ok?
    ensures var plain := Unwrap(D, kek, wrapped).value;
            && |plain| % 8 == 0 && |plain| >= 16 && |plain| + 8 == |wrapped|
            && Wrap(E, kek, plain) == wrapped
  {
    hide WrapSteps, UnwrapSteps;
    var s0 := Unpack(wrapped);
    var t := 6 * |s0.r|;
    var s := UnwrapSteps(D, kek, t, s0);
    BlocksFlatten(s.r);
    WrapUndoesUnwrap(E, D, kek, t, s0);
    PackUnpack(wrapped);
  }

  /** The accepted inputs are exactly the wrappings. */
  lemma AcceptedIffWrapped(E: BlockFn, D: BlockFn, kek: Octets, wrapped: Octets)
    requires Inverse(E, D, kek) && CipherKey(kek)
    ensures Unwrap(D, kek, wrapped).Ok? <==>
            exists plain: Octets :: |plain| % 8 == 0 && |plain| >= 16 && Wrap(E, kek, plain) == wrapped
  {
    if Unwrap(D, kek, wrapped).Ok? {
      WrapOfUnwrap(E, D, kek, wrapped);
    }
    forall plain: Octets | |plain| % 8 == 0 && |plain| >= 16 && Wrap(E, kek, plain) == wrapped
      ensures Unwrap(D, kek, wrapped).Ok?
    {
      UnwrapOfWrap(E, D, kek, plain);
    }
  }

  /** Two different accepted inputs never unwrap to the same key. */
  lemma UnwrapInjective(E: BlockFn, D: BlockFn, kek: Octets, c1: Octets, c2: Octets)
    requires Inverse(E, D, kek)
    requires Unwrap(D, kek, c1).Ok? && Unwrap(D, kek, c1) == Unwrap(D, kek, c2)
    ensures c1 == c2
  {
    WrapOfUnwrap(E, D, kek, c1);
    WrapOfUnwrap(E, D, kek, c2);
  }

  /** Which inputs give which reply, for every key and every cipher. */
  lemma UnwrapExactly(E: BlockFn, D: BlockFn, kek: Octets, wrapped: Octets, plain: Octets)
    requires Inverse(E, D, kek)
    ensures Unwrap(D, kek, wrapped) == Err(InvalidKey) <==> |wrapped| % 8 != 0 || |wrapped| < 24
    ensures Unwrap(D, kek, wrapped) == Ok(plain) <==>
            && (|kek| == 16 || |kek| == 24 || |kek| == 32)
            && |plain| % 8 == 0 && |plain| >= 16 && Wrap(E, kek, plain) == wrapped
  {
    hide WrapSteps, UnwrapSteps;
    if Unwrap(D, kek, wrapped) == Ok(plain) {
      WrapOfUnwrap(E, D, kek, wrapped);
    } else if CipherKey(kek) && |plain| % 8 == 0 && |plain| >= 16 && Wrap(E, kek, plain) == wrapped {
      UnwrapOfWrap(E, D, kek, plain);
    }
  }

  // ---------------------------------------------------------------- a cipher that does nothing

  const IDENTITY: BlockFn := (k, b) => b

  /** All the step numbers up to `t`, xored. */
  function XorUpTo(a: Octets, t: nat): (x: Octets)
    requires |a| == 8
    ensures |x| == 8
  {
    if t == 0 then a else Xor(XorUpTo(a, t - 1), Digits(t, 8))
  }

  lemma {:induction false} IdentitySteps(kek: Octets, t: nat, s: Registers)
    requires WellFormed(s) && |s.r| > 0
    ensures WrapSteps(IDENTITY, kek, t, s) == Registers(XorUpTo(s.a, t), s.r)
    decreases t
  {
    hide Digits, Xor;
    if t > 0 {
      IdentitySteps(kek, t - 1, s);
      var before := WrapSteps(IDENTITY, kek, t - 1, s);
      var i := Slot(|s.r|, t);
      var b := before.a + before.r[i];
      assert b[..8] == before.a && b[8..] == before.r[i];
      assert s.r[i := s.r[i]] == s.r;
    }
  }

  /** The low byte of the numbers up to `t`, xored. */
  function LowXor(t: nat): byte {
    if t == 0 then 0 else XorByte(LowXor(t - 1), t % 256)
  }

  lemma {:induction false} SmallDigits(t: nat, n: nat)
    requires t < 256
    ensures n > 0 ==> Digits(t, n) == Digits(0, n - 1) + [t % 256]
    ensures forall k :: 0 <= k < n ==> Digits(0, n)[k] == 0
    decreases n
  {
    if n > 0 {
      SmallDigits(0, n - 1);
      assert t / 256 == 0 && 0 / 256 == 0;
    }
  }

  lemma XorSmall(x: Octets, t: nat)
    requires |x| == 8 && t < 256
    ensures Xor(x, Digits(t, 8)) == x[..7] + [XorByte(x[7], t)]
  {
    hide Digits, XorByte;
    SmallDigits(t, 8);
    SmallDigits(0, 7);
    var d := Digits(t, 8);
    forall k | 0 <= k < 8
      ensures Xor(x, d)[k] == (x[..7] + [XorByte(x[7], t)])[k]
    {
      if k < 7 {
        assert d[k] == 0;
        XorZero(x[k]);
      }
    }
  }

  lemma {:induction false} SmallXorUpTo(a: Octets, t: nat)
    requires |a| == 8 && t < 256
    ensures XorUpTo(a, t) == SmallXor(a, LowXor(t))
    decreases t
  {
    hide Digits, Xor, SmallXor, XorByte;
    if t == 0 {
      SmallXorZero(a);
    } else {
      SmallXorUpTo(a, t - 1);
      SmallXorStep(a, t, LowXor(t - 1));
    }
  }

  /** `low` is xored into the last byte. */
  function SmallXor(a: Octets, low: byte): (x: Octets)
    requires |a| == 8
    ensures |x| == 8
  {
    a[..7] + [XorByte(a[7], low)]
  }

  lemma SmallXorZero(a: Octets)
    requires |a| == 8
    ensures SmallXor(a, 0) == a
  {
    XorZero(a[7]);
  }

  lemma SmallXorStep(a: Octets, t: nat, low: byte)
    requires |a| == 8 && t < 256
    ensures Xor(SmallXor(a, low), Digits(t, 8)) == SmallXor(a, XorByte(low, t))
  {
    hide Digits, Xor, XorByte;
    var x := SmallXor(a, low);
    XorSmall(x, t);
    XorAssociates(a[7], low, t);
    assert x[..7] == a[..7];
  }

  /**
   With a cipher that does nothing a wrapping shows all the rest: the integrity value xored with the
   number of every step, six for each block, and then the key.
   */
  lemma IdentityUnwraps(kek: Octets, plain: Octets)
    requires |kek| == 16 && |plain| % 8 == 0 && 16 <= |plain| <= 336
    ensures var steps := 6 * (|plain| / 8);
            var wrapped := [0xA6, 0xA6, 0xA6, 0xA6, 0xA6, 0xA6, 0xA6, XorByte(0xA6, LowXor(steps))] + plain;
            Unwrap(IDENTITY, kek, wrapped) == Ok(plain)
  {
    hide WrapSteps, UnwrapSteps, Unwrap, LowXor, XorUpTo, XorByte;
    var s := Registers(IV, Blocks(plain));
    var steps := 6 * |s.r|;
    IdentitySteps(kek, steps, s);
    SmallXorUpTo(IV, steps);
    FlattenBlocks(plain);
    assert IV[..7] == [0xA6, 0xA6, 0xA6, 0xA6, 0xA6, 0xA6, 0xA6] && IV[7] == 0xA6;
    assert Wrap(IDENTITY, kek, plain) ==
           [0xA6, 0xA6, 0xA6, 0xA6, 0xA6, 0xA6, 0xA6, XorByte(0xA6, LowXor(steps))] + plain;
    UnwrapOfWrap(IDENTITY, IDENTITY, kek, plain);
  }

  // ---------------------------------------------------------------- the program's loops

  /** An 8-byte window of a buffer: a Go slice `buf[off:off+8]`. */
  datatype Slice = Slice(buf: array<byte>, off: nat)

  ghost predicate InBounds(s: Slice) {
    s.off + 8 <= s.buf.Length
  }

  ghost function Window(s: Slice): Octets
    requires InBounds(s)
    reads s.buf
  {
    s.buf[s.off..s.off + 8]
  }

  /** The nested loops count `t` down through every value from 6n to 1: step (j, i) is step n*j + i. */
  lemma {:induction false} SlotOfLoopIndices(n: nat, j: nat, i: nat)
    requires 1 <= i <= n
    ensures n * j + i > 0 && Slot(n, n * j + i) == i - 1
    decreases j
  {
    if j > 0 {
      SlotOfLoopIndices(n, j - 1, i);
      assert n * j + i - n == n * (j - 1) + i;
    }
  }

  /** The 16-byte buffer of one step: the counter xor-ed into `a`, then `r`, decrypted in place. */
  method DecryptBlock(D: BlockFn, kek: Octets, a: Slice, r: Slice, t: nat) returns (b: array<byte>)
    requires KeepsBlockSize(D, kek) && InBounds(a) && InBounds(r)
    ensures fresh(b) && b.Length == 16
    ensures b[..] == D(kek, XorCounter(Window(a), t) + Window(r))
  {
    b := new byte[16];
    var k := 0;
    while k < 8
      invariant 0 <= k <= 8
      invariant forall m :: 0 <= m < k ==> b[m] == XorByte(a.buf[a.off + m], CounterByte(t, m))
    {
      b[k] := XorByte(a.buf[a.off + k], CounterByte(t, k));
      k := k + 1;
    }
    forall m | 0 <= m < 8 {
      b[8 + m] := r.buf[r.off + m];
    }
    assert b[..] == XorCounter(Window(a), t) + Window(r);
    var plain := D(kek, b[..]);
    forall m | 0 <= m < 16 {
      b[m] := plain[m];
    }
    assert b[..] == plain;
  }

  /** The windows `a` and `r[1..]` show the registers `s`; `r[0]` is the input's first block. */
  ghost predicate Holds(a: Slice, r: seq<Slice>, s: Registers)
    reads a.buf, set i | 0 <= i < |r| :: r[i].buf
  {
    && WellFormed(s) && |r| == |s.r| + 1
    && InBounds(a) && Window(a) == s.a
    && (forall i :: 1 <= i < |r| ==> InBounds(r[i]) && Window(r[i]) == s.r[i - 1])
  }

  /** One pass of the inner loop: `a` and `r[i]` become the two halves of a fresh buffer. */
  method UndoStep(D: BlockFn, kek: Octets, a: Slice, r: seq<Slice>, t: nat, i: nat, ghost s: Registers)
    returns (a': Slice, r': seq<Slice>)
    requires KeepsBlockSize(D, kek) && Holds(a, r, s)
    requires 1 <= i < |r| && t > 0 && Slot(|s.r|, t) == i - 1
    ensures Holds(a', r', UnwrapStep(D, kek, t, s))
  {
    var b := DecryptBlock(D, kek, a, r[i], t);
    a' := Slice(b, 0);
    r' := r[i := Slice(b, 8)];
    assert Window(a') == b[..][..8] && Window(r'[i]) == b[..][8..];
  }

  /** The inner loop: `i` from n down to 1, that is steps n*j + n, ..., n*j + 1. */
  method UndoRound(D: BlockFn, kek: Octets, a0: Slice, r0: seq<Slice>, j: nat, ghost s0: Registers)
    returns (a: Slice, r: seq<Slice>, ghost s: Registers)
    requires KeepsBlockSize(D, kek) && Holds(a0, r0, s0) && |r0| >= 2
    ensures Holds(a, r, s) && |r| == |r0|
    ensures UnwrapSteps(D, kek, |s0.r| * j, s) == UnwrapSteps(D, kek, |s0.r| * j + |s0.r|, s0)
  {
    hide UnwrapStep, Window;
    var n := |r0| - 1;
    a, r, s := a0, r0, s0;
    var i := n;
    var base := n * j;
    while i >= 1
      invariant 0 <= i <= n
      invariant Holds(a, r, s) && |r| == n + 1
      invariant UnwrapSteps(D, kek, base + i, s) == UnwrapSteps(D, kek, base + n, s0)
    {
      SlotOfLoopIndices(n, j, i);
      a, r := UndoStep(D, kek, a, r, base + i, i, s);
      s := UnwrapStep(D, kek, base + i, s);
      i := i - 1;
    }
  }

  /** The nested loops: `j` from 5 down to 0, and for each `j` the inner loop. */
  method UndoAllSteps(D: BlockFn, kek: Octets, a0: Slice, r0: seq<Slice>, ghost s0: Registers)
    returns (a: Slice, r: seq<Slice>)
    requires KeepsBlockSize(D, kek) && Holds(a0, r0, s0) && |r0| >= 2
    ensures Holds(a, r, UnwrapSteps(D, kek, 6 * |s0.r|, s0))
  {
    hide UnwrapStep, Window;
    var n := |r0| - 1;
    ghost var s := s0;
    a, r := a0, r0;
    var j := 5;
    while j >= 0
      invariant -1 <= j <= 5
      invariant Holds(a, r, s) && |r| == n + 1
      invariant UnwrapSteps(D, kek, n * (j + 1), s) == UnwrapSteps(D, kek, n * 6, s0)
    {
      assert n * (j + 1) == n * j + n;
      a, r, s := UndoRound(D, kek, a, r, j, s);
      j := j - 1;
    }
  }

  method IntegrityHolds(a: Slice) returns (ok: bool)
    requires InBounds(a)
    ensures ok <==> Window(a) == IV
  {
    var m := 0;
    while m < 8
      invariant 0 <= m <= 8
      invariant forall k :: 0 <= k < m ==> Window(a)[k] == IV[k]
    {
      if a.buf[a.off + m] != IV[m] {
        assert Window(a)[m] != IV[m];
        return false;
      }
      m := m + 1;
    }
    return true;
  }

  method Concatenate(r: seq<Slice>, ghost a: Slice, ghost s: Registers) returns (unwrapped: Octets)
    requires Holds(a, r, s)
    ensures unwrapped == Flatten(s.r)
  {
    unwrapped := [];
    var i := 1;
    while i < |r|
      invariant 1 <= i <= |r|
      invariant unwrapped == Flatten(s.r[..i - 1])
    {
      FlattenSnoc(s.r[..i - 1], s.r[i - 1]);
      assert s.r[..i] == s.r[..i - 1] + [s.r[i - 1]];
      unwrapped := unwrapped + r[i].buf[r[i].off..r[i].off + 8];
      i := i + 1;
    }
    assert s.r[..|r| - 1] == s.r;
  }

  /** The program's unwrap. It writes only to buffers it allocates, never to `wrapped`. */
  method UnwrapKey(wrapped: array<byte>, kek: Octets, D: BlockFn) returns (res: Result<Octets, Error>)
    requires KeepsBlockSize(D, kek)
    ensures res == Unwrap(D, kek, wrapped[..])
  {
    if wrapped.Length % 8 != 0 || wrapped.Length < 24 {
      return Err(InvalidKey);
    }
    if !CipherKey(kek) {
      return Err(DecryptionFailed);
    }
    var n := wrapped.Length / 8 - 1;
    var r := seq(n + 1, i requires 0 <= i <= n => Slice(wrapped, 8 * i));
    ghost var s0 := Unpack(wrapped[..]);
    forall i | 1 <= i <= n
      ensures InBounds(r[i]) && Window(r[i]) == s0.r[i - 1]
    {
      BlockAt(wrapped[..][8..], i - 1);
      assert wrapped[..][8..][8 * (i - 1)..8 * (i - 1) + 8] == wrapped[8 * i..8 * i + 8];
    }
    var a, r' := UndoAllSteps(D, kek, r[0], r, s0);
    var ok := IntegrityHolds(a);
    if !ok {
      return Err(DecryptionFailed);
    }
    var unwrapped := Concatenate(r', a, UnwrapSteps(D, kek, 6 * |s0.r|, s0));
    return Ok(unwrapped);
  }
}
