/** The YubiKey HID challenge frame: CRC-16, padding, framing and the record loop. */
module Chalresp {
  import opened Bytes

  // ----- words of bits -----

  /** Bits, least significant first. */
  type Bits = seq<bool>

  /** Bit i of v. */
  predicate BitAt(v: nat, i: nat) {
    if i == 0 then v % 2 == 1 else BitAt(v / 2, i - 1)
  }

  lemma ShiftedBit(v: nat, i: nat)
    requires i >= 4
    ensures BitAt(v, i) == BitAt(v / 16, i - 4)
  {
    assert BitAt(v, i) == BitAt(v / 2, i - 1) == BitAt(v / 2 / 2, i - 2);
    assert BitAt(v / 2 / 2, i - 2) == BitAt(v / 2 / 2 / 2, i - 3) == BitAt(v / 2 / 2 / 2 / 2, i - 4);
    assert v / 2 / 2 / 2 / 2 == v / 16;
  }

  /** The n low bits of v. */
  function LowBits(v: nat, n: nat): Bits { seq(n, i requires 0 <= i < n => BitAt(v, i)) }

  function FromBits(r: Bits): nat {
    if r == [] then 0 else (if r[0] then 1 else 0) + 2 * FromBits(r[1..])
  }

  function Pow2(n: nat): nat { if n == 0 then 1 else 2 * Pow2(n - 1) }

  lemma {:induction false} BitOfFrom(r: Bits, i: nat)
    requires i < |r|
    ensures BitAt(FromBits(r), i) == r[i]
  {
    if i > 0 {
      assert FromBits(r) / 2 == FromBits(r[1..]);
      BitOfFrom(r[1..], i - 1);
    }
  }

  lemma {:induction false} FromBitsBound(r: Bits)
    ensures FromBits(r) < Pow2(|r|)
  {
    if r != [] {
      FromBitsBound(r[1..]);
    }
  }

  lemma {:induction false} FromLowBits(v: nat, n: nat)
    requires v < Pow2(n)
    ensures FromBits(LowBits(v, n)) == v
  {
    if n > 0 {
      FromLowBits(v / 2, n - 1);
      assert BitAt(v, 0) == (v % 2 == 1);
      assert LowBits(v, n)[1..] == LowBits(v / 2, n - 1);
    }
  }

  function ByteBits(b: nat): Bits { LowBits(b, 8) }

  /** The byte with the given bits. */
  function ByteOf(r: Bits): Byte
    requires |r| == 8
  {
    FromBitsBound(r);
    FromBits(r)
  }

  lemma BitsRoundTrip(r: Bits)
    requires |r| == 8
    ensures ByteBits(ByteOf(r)) == r
  {
    forall i | 0 <= i < |r| ensures ByteBits(ByteOf(r))[i] == r[i] {
      BitOfFrom(r, i);
    }
  }

  lemma ByteRoundTrip(b: Byte)
    ensures ByteOf(ByteBits(b)) == b
  {
    FromLowBits(b, 8);
  }

  /** A uint16 register. */
  type Reg = r: Bits | |r| == 16 witness seq(16, _ => false)

  function Xor(a: Reg, b: Reg): Reg { seq(16, i requires 0 <= i < 16 => a[i] != b[i]) }

  function Not(a: Reg): Reg { seq(16, i requires 0 <= i < 16 => !a[i]) }

  /** The register holding v. */
  function Uint16(v: nat): Reg { LowBits(v, 16) }

  function Zeros(n: nat): Bits { seq(n, _ => false) }

  function Repeat(b: bool): Reg { seq(16, _ => b) }

  const ONES: Reg := Repeat(true)

  // ----- CRC-16 -----

  /** The set bits of the reflected polynomial 0x8408. */
  predicate Poly(i: int) { i == 3 || i == 10 || i == 15 }

  /** One bit: shift right, and exclusive-or the polynomial if a one fell out. */
  function BitStep(c: Reg): Reg {
    seq(16, i requires 0 <= i < 16 => (i < 15 && c[i + 1]) != (c[0] && Poly(i)))
  }

  function BitSteps(c: Reg, n: nat): Reg {
    if n == 0 then c else BitStep(BitSteps(c, n - 1))
  }

  function ByteStep(c: Reg, b: Byte): Reg {
    BitSteps(Xor(c, ByteBits(b) + Zeros(8)), 8)
  }

  /** The checksum of buf continued from register c. */
  function Crc(c: Reg, buf: Bytes): Reg {
    if buf == [] then c else ByteStep(Crc(c, buf[..|buf| - 1]), buf[|buf| - 1])
  }

  lemma PolynomialIs8408(i: nat)
    requires i < 16
    ensures Poly(i) == Uint16(0x8408)[i]
  {
    if i >= 4 { ShiftedBit(0x8408, i); }
    if i >= 8 { ShiftedBit(0x840, i - 4); }
    if i >= 12 { ShiftedBit(0x84, i - 8); }
    assert !BitAt(0x8408, 0) && !BitAt(0x8408, 1) && !BitAt(0x8408, 2) && BitAt(0x8408, 3);
    assert !BitAt(0x840, 0) && !BitAt(0x840, 1) && !BitAt(0x840, 2) && !BitAt(0x840, 3);
    assert !BitAt(0x84, 0) && !BitAt(0x84, 1) && BitAt(0x84, 2) && !BitAt(0x84, 3);
    assert !BitAt(0x8, 0) && !BitAt(0x8, 1) && !BitAt(0x8, 2) && BitAt(0x8, 3);
  }

  // The register update is linear and loses nothing.

  lemma BitStepLinear(a: Reg, b: Reg)
    ensures BitStep(Xor(a, b)) == Xor(BitStep(a), BitStep(b))
  {
    forall i | 0 <= i < 16 ensures BitStep(Xor(a, b))[i] == Xor(BitStep(a), BitStep(b))[i] {
    }
  }

  lemma BitStepInjective(a: Reg, b: Reg)
    requires BitStep(a) == BitStep(b)
    ensures a == b
  {
    assert BitStep(a)[15] == a[0] && BitStep(b)[15] == b[0];
    forall i | 0 <= i < 16 ensures a[i] == b[i] {
      if i > 0 {
        assert BitStep(a)[i - 1] == BitStep(b)[i - 1];
      }
    }
  }

  lemma {:induction false} BitStepsLinear(a: Reg, b: Reg, n: nat)
    ensures BitSteps(Xor(a, b), n) == Xor(BitSteps(a, n), BitSteps(b, n))
  {
    if n > 0 {
      BitStepsLinear(a, b, n - 1);
      BitStepLinear(BitSteps(a, n - 1), BitSteps(b, n - 1));
    }
  }

  lemma {:induction false} BitStepsInjective(a: Reg, b: Reg, n: nat)
    requires BitSteps(a, n) == BitSteps(b, n)
    ensures a == b
  {
    if n > 0 {
      BitStepInjective(BitSteps(a, n - 1), BitSteps(b, n - 1));
      BitStepsInjective(a, b, n - 1);
    }
  }

  lemma {:induction false} BitStepsCompose(c: Reg, m: nat, n: nat)
    ensures BitSteps(c, m + n) == BitSteps(BitSteps(c, m), n)
  {
    if n > 0 {
      BitStepsCompose(c, m, n - 1);
    }
  }

  /** A high byte is shifted down unchanged. */
  lemma {:induction false} HighByteShifts(hi: Bits, n: nat)
    requires |hi| == 8 && n <= 8
    ensures BitSteps(Zeros(8) + hi, n) == Zeros(8 - n) + hi + Zeros(n)
  {
    if n > 0 {
      HighByteShifts(hi, n - 1);
      var w: Reg := Zeros(9 - n) + hi + Zeros(n - 1);
      assert !w[0];
      assert BitStep(w) == Zeros(8 - n) + hi + Zeros(n);
    }
  }

  /** Two bytes, low byte first, as one word. */
  function Word(lo: Byte, hi: Byte): Reg { ByteBits(lo) + ByteBits(hi) }

  /** Feeding two bytes is feeding their word bit by bit. */
  lemma TwoBytes(c: Reg, lo: Byte, hi: Byte)
    ensures ByteStep(ByteStep(c, lo), hi) == BitSteps(Xor(c, Word(lo, hi)), 16)
  {
    var x: Reg := Xor(c, ByteBits(lo) + Zeros(8));
    var h: Reg := Zeros(8) + ByteBits(hi);
    assert Xor(c, Word(lo, hi)) == Xor(x, h);
    BitStepsCompose(Xor(x, h), 8, 8);
    BitStepsLinear(x, h, 8);
    HighByteShifts(ByteBits(hi), 8);
    assert Zeros(0) + ByteBits(hi) + Zeros(8) == ByteBits(hi) + Zeros(8);
  }

  lemma {:induction false} CrcConcat(c: Reg, a: Bytes, b: Bytes)
    ensures Crc(c, a + b) == Crc(Crc(c, a), b)
  {
    if b == [] {
      assert a + b == a;
    } else {
      assert (a + b)[..|a + b| - 1] == a + b[..|b| - 1];
      CrcConcat(c, a, b[..|b| - 1]);
    }
  }

  lemma XorCancels(x: Reg, y: Reg, b: Reg)
    ensures Xor(x, b) == Xor(y, b) ==> x == y
    ensures Xor(b, x) == Xor(b, y) ==> x == y
  {
    if Xor(x, b) == Xor(y, b) {
      forall i | 0 <= i < 16 ensures x[i] == y[i] {
        assert Xor(x, b)[i] == Xor(y, b)[i];
      }
    }
    if Xor(b, x) == Xor(b, y) {
      forall i | 0 <= i < 16 ensures x[i] == y[i] {
        assert Xor(b, x)[i] == Xor(b, y)[i];
      }
    }
  }

  lemma {:induction false} CrcInjective(c: Reg, d: Reg, buf: Bytes)
    requires Crc(c, buf) == Crc(d, buf)
    ensures c == d
  {
    if buf != [] {
      var l := |buf| - 1;
      var b: Reg := ByteBits(buf[l]) + Zeros(8);
      BitStepsInjective(Xor(Crc(c, buf[..l]), b), Xor(Crc(d, buf[..l]), b), 8);
      XorCancels(Crc(c, buf[..l]), Crc(d, buf[..l]), b);
      CrcInjective(c, d, buf[..l]);
    }
  }

  lemma CrcOne(c: Reg, x: Byte)
    ensures Crc(c, [x]) == ByteStep(c, x)
  {
    assert [x][..0] == [];
  }

  lemma CrcPair(c: Reg, lo: Byte, hi: Byte)
    ensures Crc(c, [lo, hi]) == BitSteps(Xor(c, Word(lo, hi)), 16)
  {
    assert [lo, hi][..1] == [lo];
    CrcOne(c, lo);
    TwoBytes(c, lo, hi);
  }

  // ----- the residual -----

  /** The register a valid response leaves. */
  const RESIDUAL: Reg := Uint16(0xF0B8)

  /** The steps at which the all-ones register drops a one. */
  predicate Dropped(n: int) { 0 <= n <= 3 || 8 <= n <= 10 || n == 12 || n == 13 || n == 14 || n == 15 }

  /** Bit i of the all-ones register after n <= 16 steps: what has been shifted down, with the ones fed back. */
  predicate OnesBit(n: int, i: int) {
    (((n + i < 16) != Dropped(n + i - 16)) != (i <= 10 && Dropped(n + i - 11))) != (i <= 3 && Dropped(n + i - 4))
  }

  lemma DroppedBit(n: nat)
    requires n < 16
    ensures OnesBit(n, 0) == Dropped(n)
  {
  }

  lemma NextOnesBit(n: nat, i: nat)
    requires n < 16 && i < 16
    ensures OnesBit(n + 1, i) == ((i < 15 && OnesBit(n, i + 1)) != (OnesBit(n, 0) && Poly(i)))
  {
    DroppedBit(n);
  }

  lemma {:induction false} OnesAfter(n: nat, i: nat)
    requires n <= 16 && i < 16
    ensures BitSteps(ONES, n)[i] == OnesBit(n, i)
  {
    if n > 0 {
      var c := BitSteps(ONES, n - 1);
      NextOnesBit(n - 1, i);
      OnesAfter(n - 1, 0);
      if i < 15 {
        OnesAfter(n - 1, i + 1);
      }
      assert BitStep(c)[i] == ((i < 15 && c[i + 1]) != (c[0] && Poly(i)));
    }
  }

  lemma ResidualBit(i: nat)
    requires i < 16
    ensures RESIDUAL[i] == OnesBit(16, i)
  {
    if i >= 4 { ShiftedBit(0xF0B8, i); }
    if i >= 8 { ShiftedBit(0xF0B, i - 4); }
    if i >= 12 { ShiftedBit(0xF0, i - 8); }
    assert !BitAt(0xF0B8, 0) && !BitAt(0xF0B8, 1) && !BitAt(0xF0B8, 2) && BitAt(0xF0B8, 3);
    assert BitAt(0xF0B, 0) && BitAt(0xF0B, 1) && !BitAt(0xF0B, 2) && BitAt(0xF0B, 3);
    assert !BitAt(0xF0, 0) && !BitAt(0xF0, 1) && !BitAt(0xF0, 2) && !BitAt(0xF0, 3);
    assert BitAt(0xF, 0) && BitAt(0xF, 1) && BitAt(0xF, 2) && BitAt(0xF, 3);
  }

  /** Sixteen steps take the all-ones register to 0xF0B8. */
  lemma OnesLeaveResidual(n: nat)
    requires n == 16
    ensures BitSteps(ONES, n) == RESIDUAL
  {
    forall i | 0 <= i < 16 ensures BitSteps(ONES, n)[i] == RESIDUAL[i] {
      OnesAfter(n, i);
      ResidualBit(i);
    }
  }

  lemma NotIsXorOnes(a: Reg, b: Reg)
    ensures a == Not(b) <==> Xor(b, a) == ONES
  {
    if Xor(b, a) == ONES {
      forall i | 0 <= i < 16 ensures a[i] == Not(b)[i] {
        assert Xor(b, a)[i];
      }
    }
  }

  /** A two-byte suffix leaves the residual exactly when it is the complement of the
      checksum of what precedes it, low byte first. */
  lemma ResidualExact(data: Bytes, lo: Byte, hi: Byte)
    ensures Crc(ONES, data + [lo, hi]) == RESIDUAL <==> Word(lo, hi) == Not(Crc(ONES, data))
  {
    var c, n: nat := Crc(ONES, data), 16;
    CrcConcat(ONES, data, [lo, hi]);
    CrcPair(c, lo, hi);
    OnesLeaveResidual(n);
    NotIsXorOnes(Word(lo, hi), c);
    if BitSteps(Xor(c, Word(lo, hi)), n) == RESIDUAL {
      BitStepsInjective(Xor(c, Word(lo, hi)), ONES, n);
    }
  }

  function LowByte(c: Reg): Byte { ByteOf(c[..8]) }

  function HighByte(c: Reg): Byte { ByteOf(c[8..]) }

  lemma WordBytes(c: Reg)
    ensures Word(LowByte(c), HighByte(c)) == c
  {
    BitsRoundTrip(c[..8]);
    BitsRoundTrip(c[8..]);
    assert c == c[..8] + c[8..];
  }

  lemma WordInjective(a: Byte, b: Byte, c: Byte, d: Byte)
    requires Word(a, b) == Word(c, d)
    ensures a == c && b == d
  {
    assert ByteBits(a) == Word(a, b)[..8] == ByteBits(c);
    assert ByteBits(b) == Word(a, b)[8..] == ByteBits(d);
    ByteRoundTrip(a);
    ByteRoundTrip(b);
    ByteRoundTrip(c);
    ByteRoundTrip(d);
  }

  /** The two bytes a device appends to data. */
  function Complement(data: Bytes): Bytes {
    [LowByte(Not(Crc(ONES, data))), HighByte(Not(Crc(ONES, data)))]
  }

  /** Among all two-byte suffixes, the complement and no other makes data valid. */
  lemma UniqueValidSuffix(data: Bytes, suffix: Bytes)
    requires |suffix| == 2
    ensures Crc(ONES, data + suffix) == RESIDUAL <==> suffix == Complement(data)
  {
    var lo, hi := suffix[0], suffix[1];
    assert suffix == [lo, hi];
    ResidualExact(data, lo, hi);
    WordBytes(Not(Crc(ONES, data)));
    if Word(lo, hi) == Not(Crc(ONES, data)) {
      WordInjective(lo, hi, LowByte(Not(Crc(ONES, data))), HighByte(Not(Crc(ONES, data))));
    }
  }

  lemma {:induction false} ZeroStays(n: nat)
    ensures BitSteps(Repeat(false), n) == Repeat(false)
  {
    if n > 0 {
      ZeroStays(n - 1);
      assert BitStep(Repeat(false)) == Repeat(false);
    }
  }

  lemma SelfXor(a: Reg, b: Reg)
    ensures Xor(a, b) == Repeat(false) <==> b == a
  {
    if Xor(a, b) == Repeat(false) {
      forall i | 0 <= i < 16 ensures a[i] == b[i] {
        assert !Xor(a, b)[i];
      }
    }
  }

  /** A word clears a register exactly when it equals it. */
  lemma WordClears(c: Reg, w: Reg, n: nat)
    ensures BitSteps(Xor(c, w), n) == Repeat(false) <==> w == c
  {
    ZeroStays(n);
    SelfXor(c, w);
    if BitSteps(Xor(c, w), n) == Repeat(false) {
      BitStepsInjective(Xor(c, w), Repeat(false), n);
    }
  }

  /** The uncomplemented checksum is the one two-byte suffix that clears the register. */
  lemma UniqueClearingSuffix(data: Bytes, lo: Byte, hi: Byte)
    ensures Crc(ONES, data + [lo, hi]) == Repeat(false)
        <==> lo == LowByte(Crc(ONES, data)) && hi == HighByte(Crc(ONES, data))
  {
    var crc, n: nat := Crc(ONES, data), 16;
    CrcConcat(ONES, data, [lo, hi]);
    CrcPair(crc, lo, hi);
    WordClears(crc, Word(lo, hi), n);
    WordBytes(crc);
    if Word(lo, hi) == crc {
      WordInjective(lo, hi, LowByte(crc), HighByte(crc));
    }
  }

  // ----- what the checksum detects -----

  lemma PairChangesRegister(c: Reg, p: Bytes, q: Bytes)
    requires |p| == |q| == 2 && p != q
    ensures Crc(c, p) != Crc(c, q)
  {
    var n: nat := 16;
    assert p == [p[0], p[1]] && q == [q[0], q[1]];
    CrcPair(c, p[0], p[1]);
    CrcPair(c, q[0], q[1]);
    var v, w := Word(p[0], p[1]), Word(q[0], q[1]);
    if Crc(c, p) == Crc(c, q) {
      BitStepsInjective(Xor(c, v), Xor(c, w), n);
      XorCancels(v, w, c);
      WordInjective(p[0], p[1], q[0], q[1]);
    }
  }

  /** Any change confined to two adjacent bytes changes the checksum. */
  lemma BurstDetected(before: Bytes, p: Bytes, q: Bytes, after: Bytes)
    requires |p| == |q| == 2 && p != q
    ensures Crc(ONES, before + p + after) != Crc(ONES, before + q + after)
  {
    var c := Crc(ONES, before);
    CrcConcat(ONES, before, p);
    CrcConcat(ONES, before, q);
    CrcConcat(ONES, before + p, after);
    CrcConcat(ONES, before + q, after);
    PairChangesRegister(c, p, q);
    if Crc(Crc(c, p), after) == Crc(Crc(c, q), after) {
      CrcInjective(Crc(c, p), Crc(c, q), after);
    }
  }

  /** Any change to one byte changes the checksum. */
  lemma SingleByteDetected(buf: Bytes, k: nat, x: Byte)
    requires k < |buf| && x != buf[k]
    ensures Crc(ONES, buf[k := x]) != Crc(ONES, buf)
  {
    var before, after := buf[..k], buf[k + 1..];
    assert buf == before + [buf[k]] + after;
    assert buf[k := x] == before + [x] + after;
    var c := Crc(ONES, before);
    CrcConcat(ONES, before, [x]);
    CrcConcat(ONES, before, [buf[k]]);
    CrcConcat(ONES, before + [x], after);
    CrcConcat(ONES, before + [buf[k]], after);
    assert Crc(c, [x]) != Crc(c, [buf[k]]) by {
      PairChangesRegister(c, [x, 0], [buf[k], 0]);
      CrcConcat(c, [x], [0]);
      CrcConcat(c, [buf[k]], [0]);
      assert [x] + [0] == [x, 0] && [buf[k]] + [0] == [buf[k], 0];
    }
    if Crc(Crc(c, [x]), after) == Crc(Crc(c, [buf[k]]), after) {
      CrcInjective(Crc(c, [x]), Crc(c, [buf[k]]), after);
    }
  }

  // ----- the checksum loop -----

  method ShiftOut(c: Reg) returns (r: Reg)
    ensures r == BitStep(c)
  {
    r := c[1..] + [false];
    if c[0] {
      r := Xor(r, Uint16(0x8408));
    }
    forall i | 0 <= i < 16 ensures r[i] == BitStep(c)[i] {
      PolynomialIs8408(i);
    }
  }

  lemma {:induction false} BitsOfSmall(v: nat, n: nat, i: nat)
    requires v < Pow2(n) && n <= i
    ensures !BitAt(v, i)
  {
    if i > 0 && n > 0 {
      BitsOfSmall(v / 2, n - 1, i - 1);
    } else if i > 0 {
      BitsOfSmall(v, 0, i - 1);
    }
  }

  lemma HighBitsOfByte(b: Byte)
    ensures Uint16(b) == ByteBits(b) + Zeros(8)
  {
    forall i | 8 <= i < 16 ensures !BitAt(b, i) {
      BitsOfSmall(b, 8, i);
    }
  }

  method FeedByte(c: Reg, b: Byte) returns (r: Reg)
    ensures r == ByteStep(c, b)
  {
    r := Xor(c, Uint16(b));
    ghost var start := r;
    HighBitsOfByte(b);
    for i := 0 to 8
      invariant r == BitSteps(start, i)
    {
      r := ShiftOut(r);
    }
  }

  method YubikeyCRC16(buf: Bytes) returns (crc: Reg)
    ensures crc == Crc(ONES, buf)
  {
    crc := ONES;
    for i := 0 to |buf|
      invariant crc == Crc(ONES, buf[..i])
    {
      crc := FeedByte(crc, buf[i]);
      assert buf[..i + 1][..i] == buf[..i];
    }
    assert buf[..|buf|] == buf;
  }
}
