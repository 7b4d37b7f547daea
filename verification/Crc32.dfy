/**
 The reflected CRC-32 of components/bluepad32/uni_utils.c, with the polynomial of
 section 8 of RFC 1952.

 The loop is modelled on `bv32`. It is xor-linear, it composes over concatenation,
 and one shift step is a bijection. Together these give the error-detection
 guarantee: a corruption confined to 32 consecutive bits, wherever they start, is
 always noticed.
 */
module Crc32 {

  const CRC_POLY: bv32 := 0xedb88320

  function Xor(x: bv32, y: bv32): bv32 {
    x ^ y
  }

  function Widen(b: bv8): bv32 {
    b as bv32
  }

  function Half(crc: bv32): bv32 {
    crc >> 1
  }

  /** The loop's `mult`. */
  function Mult(crc: bv32): bv32 {
    if crc & 1 == 1 then CRC_POLY else 0
  }

  /** One iteration of the inner loop. */
  function Shift(crc: bv32): bv32 {
    Xor(Half(crc), Mult(crc))
  }

  /** `n` iterations of the inner loop. */
  function Shifts(crc: bv32, n: nat): bv32
    decreases n
  {
    if n == 0 then crc else Shifts(Shift(crc), n - 1)
  }

  function Feed(crc: bv32, b: bv8): bv32 {
    Shifts(Xor(crc, Widen(b)), 8)
  }

  function Crc(crc: bv32, data: seq<bv8>): bv32
    decreases |data|
  {
    if data == [] then crc else Crc(Feed(crc, data[0]), data[1..])
  }

  /** uni_crc32_le: the nested loops compute Crc. */
  method UpdateCrc(start: bv32, data: array<bv8>) returns (crc: bv32)
    ensures crc == Crc(start, data[..])
  {
    hide Xor, Shift, Widen;
    crc := start;
    var pos := 0;
    while pos < data.Length
      invariant 0 <= pos <= data.Length
      invariant Crc(crc, data[pos..]) == Crc(start, data[..])
    {
      ghost var before := crc;
      ghost var rest := data[pos..];
      crc := MixByte(crc, data[pos]);
      var i := 0;
      while i < 8
        invariant 0 <= i <= 8
        invariant Shifts(crc, 8 - i) == Feed(before, rest[0])
      {
        crc := ShiftOnce(crc);
        i := i + 1;
      }
      assert rest[1..] == data[pos + 1..];
      pos := pos + 1;
    }
  }

  /** `crc ^= *data` */
  method MixByte(crc: bv32, b: bv8) returns (r: bv32)
    ensures r == Xor(crc, Widen(b))
  {
    r := crc ^ (b as bv32);
  }

  /** `mult = (crc & 1) ? CRCPOLY : 0; crc = (crc >> 1) ^ mult` */
  method ShiftOnce(crc: bv32) returns (r: bv32)
    ensures r == Shift(crc)
  {
    var mult := if crc & 1 == 1 then CRC_POLY else 0;
    r := (crc >> 1) ^ mult;
  }

  // ----- Bit-level facts, each about a fixed number of bits -----

  lemma AssocBits(x: bv32, y: bv32, z: bv32, yz: bv32, xy: bv32)
    requires yz == x ^ y && xy == y ^ z
    ensures yz ^ z == x ^ xy
  {}

  lemma XorAssociates(x: bv32, y: bv32, z: bv32)
    ensures Xor(Xor(x, y), z) == Xor(x, Xor(y, z))
  {
    AssocBits(x, y, z, Xor(x, y), Xor(y, z));
  }

  lemma XorCommutes(x: bv32, y: bv32)
    ensures Xor(x, y) == Xor(y, x)
  {}

  lemma XorZero(x: bv32)
    ensures Xor(x, 0) == x && Xor(0, x) == x
  {}

  lemma CancelBits(x: bv32, y: bv32, z: bv32, xy: bv32, xz: bv32)
    requires xy == x ^ y && xz == x ^ z && xy == xz
    ensures y == z
  {
    assert x ^ xy == y && x ^ xz == z;
  }

  lemma XorCancels(x: bv32, y: bv32, z: bv32)
    requires Xor(x, y) == Xor(x, z)
    ensures y == z
  {
    CancelBits(x, y, z, Xor(x, y), Xor(x, z));
  }

  lemma HalfIsLinear(x: bv32, y: bv32)
    ensures Half(Xor(x, y)) == Xor(Half(x), Half(y))
  {}

  lemma MultIsLinear(x: bv32, y: bv32)
    ensures Mult(Xor(x, y)) == Xor(Mult(x), Mult(y))
  {
    assert (x ^ y) & 1 == (x & 1) ^ (y & 1);
  }

  /** Regroups the four operands of two xors. */
  lemma XorSwaps(p: bv32, q: bv32, r: bv32, s: bv32)
    ensures Xor(Xor(p, q), Xor(r, s)) == Xor(Xor(p, r), Xor(q, s))
  {
    hide Xor;
    XorAssociates(p, q, Xor(r, s));
    XorAssociates(q, r, s);
    XorCommutes(q, r);
    XorAssociates(r, q, s);
    XorAssociates(p, r, Xor(q, s));
  }

  lemma ShiftIsLinear(x: bv32, y: bv32)
    ensures Shift(Xor(x, y)) == Xor(Shift(x), Shift(y))
  {
    hide Xor, Half, Mult;
    HalfIsLinear(x, y);
    MultIsLinear(x, y);
    XorSwaps(Half(x), Mult(x), Half(y), Mult(y));
  }

  /** The inverse of Shift: the top bit of the result says whether the polynomial was mixed in. */
  function Unshift(crc: bv32): bv32 {
    if crc >> 31 == 1 then ((crc ^ 0xedb88320) << 1) | 1 else crc << 1
  }

  lemma UnshiftEven(x: bv32)
    requires x & 1 == 0
    ensures Mult(x) == 0 && Unshift(x >> 1) == x
  {}

  lemma UnshiftOdd(x: bv32)
    requires x & 1 == 1
    ensures Mult(x) == 0xedb88320
    ensures Unshift((x >> 1) ^ 0xedb88320) == x
  {}

  lemma ShiftOdd(x: bv32)
    requires Mult(x) == 0xedb88320
    ensures Shift(x) == (x >> 1) ^ 0xedb88320
  {
    hide Mult;
  }

  lemma ShiftEven(x: bv32)
    requires Mult(x) == 0
    ensures Shift(x) == x >> 1
  {
    hide Mult;
  }

  lemma LowBit(x: bv32)
    ensures x & 1 == 0 || x & 1 == 1
  {}

  /** One shift loses nothing, because the polynomial has its top bit set. */
  lemma ShiftIsInvertible(x: bv32)
    ensures Unshift(Shift(x)) == x
  {
    hide Mult, Shift, Unshift;
    LowBit(x);
    if x & 1 == 1 {
      UnshiftOdd(x);
      ShiftOdd(x);
    } else {
      UnshiftEven(x);
      ShiftEven(x);
    }
  }

  lemma ShiftIsInjective(x: bv32, y: bv32)
    requires Shift(x) == Shift(y)
    ensures x == y
  {
    hide Shift, Unshift;
    ShiftIsInvertible(x);
    ShiftIsInvertible(y);
  }

  // ----- Repeated shifts -----

  lemma {:induction false} ShiftsAreLinear(x: bv32, y: bv32, n: nat)
    ensures Shifts(Xor(x, y), n) == Xor(Shifts(x, n), Shifts(y, n))
    decreases n
  {
    hide Xor, Shift;
    if n > 0 {
      ShiftIsLinear(x, y);
      ShiftsAreLinear(Shift(x), Shift(y), n - 1);
    }
  }

  lemma {:induction false} ShiftsAreInjective(x: bv32, y: bv32, n: nat)
    requires Shifts(x, n) == Shifts(y, n)
    ensures x == y
    decreases n
  {
    hide Shift;
    if n > 0 {
      ShiftsAreInjective(Shift(x), Shift(y), n - 1);
      ShiftIsInjective(x, y);
    }
  }

  lemma {:induction false} ShiftsAdd(x: bv32, m: nat, n: nat)
    ensures Shifts(x, m + n) == Shifts(Shifts(x, m), n)
    decreases m
  {
    hide Shift;
    if m > 0 {
      ShiftsAdd(Shift(x), m - 1, n);
    }
  }

  // ----- Whole messages -----

  function XorBytes(a: seq<bv8>, b: seq<bv8>): (r: seq<bv8>)
    requires |a| == |b|
    ensures |r| == |a|
  {
    seq(|a|, i requires 0 <= i < |a| => a[i] ^ b[i])
  }

  /** The register after a message is the register after its first part, fed the second part. */
  lemma {:induction false} CrcComposes(crc: bv32, a: seq<bv8>, b: seq<bv8>)
    ensures Crc(crc, a + b) == Crc(Crc(crc, a), b)
    decreases |a|
  {
    hide Feed;
    if a == [] {
      assert a + b == b;
    } else {
      assert (a + b)[1..] == a[1..] + b;
      CrcComposes(Feed(crc, a[0]), a[1..], b);
    }
  }

  lemma WidenIsLinear(a: bv8, b: bv8)
    ensures Widen(a ^ b) == Xor(Widen(a), Widen(b))
  {}

  lemma FeedIsLinear(x: bv32, y: bv32, a: bv8, b: bv8)
    ensures Feed(Xor(x, y), a ^ b) == Xor(Feed(x, a), Feed(y, b))
  {
    hide Xor, Shifts, Widen;
    WidenIsLinear(a, b);
    XorSwaps(x, y, Widen(a), Widen(b));
    ShiftsAreLinear(Xor(x, Widen(a)), Xor(y, Widen(b)), 8);
  }

  /** The whole computation is linear over xor, in the register and the message at once. */
  lemma {:induction false} CrcIsLinear(x: bv32, y: bv32, a: seq<bv8>, b: seq<bv8>)
    requires |a| == |b|
    ensures Crc(Xor(x, y), XorBytes(a, b)) == Xor(Crc(x, a), Crc(y, b))
    decreases |a|
  {
    hide Xor, Feed;
    if a != [] {
      FeedIsLinear(x, y, a[0], b[0]);
      assert XorBytes(a, b)[1..] == XorBytes(a[1..], b[1..]);
      CrcIsLinear(Feed(x, a[0]), Feed(y, b[0]), a[1..], b[1..]);
    }
  }

  // ----- The polynomial -----

  /** The generator of RFC 1952, section 8, by its exponents below 32, highest power first. */
  function Generator(): bv32 {
    (1 << 26) | (1 << 23) | (1 << 22) | (1 << 16) | (1 << 12) | (1 << 11) | (1 << 10)
    | (1 << 8) | (1 << 7) | (1 << 5) | (1 << 4) | (1 << 2) | (1 << 1) | 1
  }

  /** One step of long division by the generator, on coefficients with the highest power first. */
  function Divide(x: bv32): bv32 {
    Xor(x << 1, if x >> 31 == 1 then Generator() else 0)
  }

  function Divides(x: bv32, n: nat): bv32
    decreases n
  {
    if n == 0 then x else Divides(Divide(x), n - 1)
  }

  /** The remainder of the message, each byte entering with its low bit as the highest power. */
  function Remainder(x: bv32, data: seq<bv8>): bv32
    decreases |data|
  {
    if data == [] then x else Remainder(Divides(Xor(x, Reflect(Widen(data[0]))), 8), data[1..])
  }

  /** The 32 bits in reverse order: neighbours, pairs, nibbles, bytes and halves are exchanged in turn. */
  function Reflect(x: bv32): bv32 {
    var a := ((x >> 1) & 0x55555555) | ((x & 0x55555555) << 1);
    var b := ((a >> 2) & 0x33333333) | ((a & 0x33333333) << 2);
    var c := ((b >> 4) & 0x0F0F0F0F) | ((b & 0x0F0F0F0F) << 4);
    var d := ((c >> 8) & 0x00FF00FF) | ((c & 0x00FF00FF) << 8);
    (d >> 16) | (d << 16)
  }

  /** Reversal turns a right shift into a left shift; spelled out for the solver. */
  lemma ReflectHalfBits(x: bv32)
    ensures (var y := x >> 1;
             var a := ((y >> 1) & 0x55555555) | ((y & 0x55555555) << 1);
             var b := ((a >> 2) & 0x33333333) | ((a & 0x33333333) << 2);
             var c := ((b >> 4) & 0x0F0F0F0F) | ((b & 0x0F0F0F0F) << 4);
             var d := ((c >> 8) & 0x00FF00FF) | ((c & 0x00FF00FF) << 8);
             (d >> 16) | (d << 16))
         == (var a := ((x >> 1) & 0x55555555) | ((x & 0x55555555) << 1);
             var b := ((a >> 2) & 0x33333333) | ((a & 0x33333333) << 2);
             var c := ((b >> 4) & 0x0F0F0F0F) | ((b & 0x0F0F0F0F) << 4);
             var d := ((c >> 8) & 0x00FF00FF) | ((c & 0x00FF00FF) << 8);
             (d >> 16) | (d << 16)) << 1
  {}

  lemma ReflectIsLinear(x: bv32, y: bv32)
    ensures Reflect(Xor(x, y)) == Xor(Reflect(x), Reflect(y))
  {}

  lemma ReflectHalf(x: bv32)
    ensures Reflect(Half(x)) == Reflect(x) << 1
  {
    hide Reflect;
    ReflectShifted(x);
  }

  lemma ReflectShifted(x: bv32)
    ensures Reflect(x >> 1) == Reflect(x) << 1
  {
    ReflectHalfBits(x);
  }

  lemma ReflectMult(x: bv32)
    ensures Reflect(Mult(x)) == if Reflect(x) >> 31 == 1 then Generator() else 0
  {}

  /** The reflected shift is the division step read backwards. */
  lemma ShiftIsDivision(x: bv32)
    ensures Reflect(Shift(x)) == Divide(Reflect(x))
  {
    hide Xor, Half, Mult, Reflect, Generator;
    ReflectIsLinear(Half(x), Mult(x));
    ReflectHalf(x);
    ReflectMult(x);
  }

  lemma {:induction false} ShiftsAreDivisions(x: bv32, n: nat)
    ensures Reflect(Shifts(x, n)) == Divides(Reflect(x), n)
    decreases n
  {
    hide Shift, Reflect, Divide;
    if n > 0 {
      ShiftIsDivision(x);
      ShiftsAreDivisions(Shift(x), n - 1);
    }
  }

  /** The loop computes, in reflected form, the remainder of polynomial division by the generator. */
  lemma {:induction false} CrcIsRemainder(crc: bv32, data: seq<bv8>)
    ensures Reflect(Crc(crc, data)) == Remainder(Reflect(crc), data)
    decreases |data|
  {
    hide Xor, Reflect, Shifts, Divides, Widen;
    if data != [] {
      var mixed := Xor(crc, Widen(data[0]));
      ReflectIsLinear(crc, Widen(data[0]));
      ShiftsAreDivisions(mixed, 8);
      CrcIsRemainder(Feed(crc, data[0]), data[1..]);
    }
  }

  // ----- The message bit by bit -----

  function Bit(b: bool): bv32 {
    if b then 1 else 0
  }

  function FeedBit(crc: bv32, b: bool): bv32 {
    Shift(Xor(crc, Bit(b)))
  }

  function BitCrc(crc: bv32, bits: seq<bool>): bv32
    decreases |bits|
  {
    if bits == [] then crc else BitCrc(FeedBit(crc, bits[0]), bits[1..])
  }

  /** Bit `k` of a byte, from the low end. */
  function ByteBit(b: bv8, k: nat): bool
    requires k < 8
  {
    var shifted := match k
      case 0 => b
      case 1 => b >> 1
      case 2 => b >> 2
      case 3 => b >> 3
      case 4 => b >> 4
      case 5 => b >> 5
      case 6 => b >> 6
      case _ => b >> 7;
    shifted & 1 == 1
  }

  function ByteBits(b: bv8): (r: seq<bool>)
    ensures |r| == 8 && forall k | 0 <= k < 8 :: r[k] == ByteBit(b, k)
  {
    [ByteBit(b, 0), ByteBit(b, 1), ByteBit(b, 2), ByteBit(b, 3), ByteBit(b, 4), ByteBit(b, 5), ByteBit(b, 6), ByteBit(b, 7)]
  }

  /** Bit `k` of a message in the order the loop consumes them: bytes in turn, each from its low end. */
  function BitAt(data: seq<bv8>, k: nat): bool
    requires k < 8 * |data|
  {
    ByteBit(data[k / 8], k % 8)
  }

  function Bits(data: seq<bv8>): (r: seq<bool>)
    ensures |r| == 8 * |data|
    decreases |data|
  {
    if data == [] then [] else ByteBits(data[0]) + Bits(data[1..])
  }

  lemma {:induction false} BitsAt(data: seq<bv8>, k: nat)
    requires k < 8 * |data|
    ensures Bits(data)[k] == BitAt(data, k)
    decreases |data|
  {
    hide ByteBit, ByteBits;
    if k >= 8 {
      BitsAt(data[1..], k - 8);
      assert (k - 8) / 8 == k / 8 - 1 && (k - 8) % 8 == k % 8;
    }
  }

  lemma {:induction false} BitsConcat(a: seq<bv8>, b: seq<bv8>)
    ensures Bits(a + b) == Bits(a) + Bits(b)
    decreases |a|
  {
    hide ByteBits;
    if a == [] {
      assert a + b == b;
    } else {
      assert (a + b)[1..] == a[1..] + b;
      BitsConcat(a[1..], b);
    }
  }

  lemma ByteFromBits(a: bv8, b: bv8)
    requires forall k | 0 <= k < 8 :: ByteBit(a, k) == ByteBit(b, k)
    ensures a == b
  {
    assert ByteBit(a, 0) == ByteBit(b, 0) && ByteBit(a, 1) == ByteBit(b, 1);
    assert ByteBit(a, 2) == ByteBit(b, 2) && ByteBit(a, 3) == ByteBit(b, 3);
    assert ByteBit(a, 4) == ByteBit(b, 4) && ByteBit(a, 5) == ByteBit(b, 5);
    assert ByteBit(a, 6) == ByteBit(b, 6) && ByteBit(a, 7) == ByteBit(b, 7);
  }

  lemma {:induction false} BitsAreInjective(a: seq<bv8>, b: seq<bv8>)
    requires |a| == |b| && Bits(a) == Bits(b)
    ensures a == b
    decreases |a|
  {
    hide ByteBit;
    if a != [] {
      assert Bits(a)[..8] == ByteBits(a[0]) && Bits(b)[..8] == ByteBits(b[0]);
      assert Bits(a)[8..] == Bits(a[1..]) && Bits(b)[8..] == Bits(b[1..]);
      forall k | 0 <= k < 8
        ensures ByteBit(a[0], k) == ByteBit(b[0], k)
      {
        assert ByteBits(a[0])[k] == ByteBits(b[0])[k];
      }
      ByteFromBits(a[0], b[0]);
      BitsAreInjective(a[1..], b[1..]);
      assert a == [a[0]] + a[1..] && b == [b[0]] + b[1..];
    }
  }

  // ----- At most 32 bits are one word -----

  function Double(x: bv32): bv32 {
    x << 1
  }

  predicate TopClear(x: bv32) {
    x >> 31 == 0
  }

  /** The bits as a word, the first one lowest. */
  function BitWord(bits: seq<bool>): bv32
    decreases |bits|
  {
    if bits == [] then 0 else Xor(Bit(bits[0]), Double(BitWord(bits[1..])))
  }

  /** The `n` low bits set. */
  function Mask(n: nat): bv32 {
    if n == 0 then 0 else Xor(1, Double(Mask(n - 1)))
  }

  predicate Within(x: bv32, mask: bv32) {
    x & mask == x
  }

  lemma PrependWithin(b: bool, x: bv32, mask: bv32)
    requires Within(x, mask)
    ensures Within(Xor(Bit(b), Double(x)), Xor(1, Double(mask)))
  {}

  lemma {:induction false} BitWordWithin(bits: seq<bool>)
    ensures Within(BitWord(bits), Mask(|bits|))
    decreases |bits|
  {
    hide Xor, Double, Bit, Within;
    if bits == [] {
      ZeroWithin();
    } else {
      BitWordWithin(bits[1..]);
      PrependWithin(bits[0], BitWord(bits[1..]), Mask(|bits| - 1));
    }
  }

  lemma ZeroWithin()
    ensures Within(0, 0)
  {}

  lemma ClearBelow(x: bv32)
    requires Within(x, 0x7fffffff)
    ensures TopClear(x)
  {}

  lemma WithinTrans(x: bv32, y: bv32, z: bv32)
    requires Within(x, y) && Within(y, z)
    ensures Within(x, z)
  {
    assert x & y == x && y & z == y ==> x & z == x;
  }

  lemma {:induction false} MasksNest(m: nat, n: nat)
    requires m <= n
    ensures Within(Mask(m), Mask(n))
    decreases m
  {
    hide Xor, Double, Within;
    if m == 0 {
      NothingWithin(Mask(n));
    } else {
      MasksNest(m - 1, n - 1);
      PrependWithin(true, Mask(m - 1), Mask(n - 1));
    }
  }

  lemma NothingWithin(y: bv32)
    ensures Within(0, y)
  {}

  lemma Mask31()
    ensures Mask(31) == 0x7fffffff
  {
    assert Mask(8) == 0xff;
    assert Mask(16) == 0xffff;
    assert Mask(24) == 0xffffff;
  }

  /** Fewer than 32 bits leave the top of the word clear. */
  lemma BitWordTopClear(bits: seq<bool>)
    requires |bits| <= 31
    ensures TopClear(BitWord(bits))
  {
    hide BitWord, Mask, Within, TopClear;
    BitWordWithin(bits);
    MasksNest(|bits|, 31);
    Mask31();
    WithinTrans(BitWord(bits), Mask(|bits|), Mask(31));
    ClearBelow(BitWord(bits));
  }

  lemma ShiftUndoesDouble(x: bv32)
    requires TopClear(x)
    ensures Shift(Double(x)) == x
  {
    assert (x << 1) & 1 == 0;
    assert Mult(Double(x)) == 0;
  }

  /** Feeding at most 32 bits equals xoring them in at once and shifting once per bit. */
  lemma {:induction false} FeedingBits(crc: bv32, bits: seq<bool>)
    requires |bits| <= 32
    ensures BitCrc(crc, bits) == Shifts(Xor(crc, BitWord(bits)), |bits|)
    decreases |bits|
  {
    hide Xor, Double, Bit, Shift, TopClear;
    if bits == [] {
      XorZero(crc);
    } else {
      var b, rest := Bit(bits[0]), BitWord(bits[1..]);
      FeedingBits(FeedBit(crc, bits[0]), bits[1..]);
      BitWordTopClear(bits[1..]);
      ShiftUndoesDouble(rest);
      ShiftIsLinear(Xor(crc, b), Double(rest));
      XorAssociates(crc, b, Double(rest));
    }
  }

  lemma SplitBit(a: bool, b: bool, p: bv32, q: bv32)
    requires TopClear(p) && TopClear(q) && Xor(Bit(a), Double(p)) == Xor(Bit(b), Double(q))
    ensures a == b && p == q
  {}

  lemma {:induction false} BitWordIsInjective(v: seq<bool>, w: seq<bool>)
    requires |v| == |w| <= 32 && BitWord(v) == BitWord(w)
    ensures v == w
    decreases |v|
  {
    hide Xor, Double, Bit, TopClear;
    if v != [] {
      BitWordTopClear(v[1..]);
      BitWordTopClear(w[1..]);
      SplitBit(v[0], w[0], BitWord(v[1..]), BitWord(w[1..]));
      BitWordIsInjective(v[1..], w[1..]);
      assert v == [v[0]] + v[1..] && w == [w[0]] + w[1..];
    }
  }

  // ----- Bytes are fed as their bits -----

  lemma BitWordCons(b: bool, rest: seq<bool>)
    ensures BitWord([b] + rest) == Xor(Bit(b), Double(BitWord(rest)))
  {
    hide Xor, Double, Bit;
    assert ([b] + rest)[1..] == rest;
  }

  lemma FourBits(a: bool, b: bool, c: bool, d: bool, rest: seq<bool>)
    ensures BitWord([a, b, c, d] + rest) ==
              Xor(Bit(a), Double(Xor(Bit(b), Double(Xor(Bit(c), Double(Xor(Bit(d), Double(BitWord(rest)))))))))
  {
    hide BitWord, Xor, Double, Bit;
    var z := [d] + rest;
    var y := [c] + z;
    var x := [b] + y;
    BitWordCons(d, rest);
    BitWordCons(c, z);
    BitWordCons(b, y);
    BitWordCons(a, x);
    assert [a, b, c, d] + rest == [a] + x;
  }

  lemma EightBools(a: bool, b: bool, c: bool, d: bool, e: bool, f: bool, g: bool, h: bool)
    ensures BitWord([a, b, c, d, e, f, g, h]) ==
              Xor(Bit(a), Double(Xor(Bit(b), Double(Xor(Bit(c), Double(Xor(Bit(d), Double(
                Xor(Bit(e), Double(Xor(Bit(f), Double(Xor(Bit(g), Double(Xor(Bit(h), Double(0))))))))))))))))
  {
    hide *;
    FourBits(e, f, g, h, []);
    FourBits(a, b, c, d, [e, f, g, h] + []);
    NoWord();
    assert [a, b, c, d] + ([e, f, g, h] + []) == [a, b, c, d, e, f, g, h];
  }

  lemma ByteIsItsBits(b: bv8)
    ensures BitWord(ByteBits(b)) == Widen(b)
  {
    hide ByteBit, BitWord, Xor, Double, Bit, Widen;
    EightBits(b);
    EightBools(ByteBit(b, 0), ByteBit(b, 1), ByteBit(b, 2), ByteBit(b, 3),
               ByteBit(b, 4), ByteBit(b, 5), ByteBit(b, 6), ByteBit(b, 7));
  }

  lemma NoWord()
    ensures BitWord([]) == 0
  {}

  lemma EightBits(b: bv8)
    ensures Xor(Bit(ByteBit(b, 0)), Double(Xor(Bit(ByteBit(b, 1)), Double(Xor(Bit(ByteBit(b, 2)), Double(Xor(Bit(ByteBit(b, 3)),
              Double(Xor(Bit(ByteBit(b, 4)), Double(Xor(Bit(ByteBit(b, 5)), Double(Xor(Bit(ByteBit(b, 6)), Double(
                Xor(Bit(ByteBit(b, 7)), Double(0)))))))))))))))) == Widen(b)
  {}

  lemma {:induction false} BitCrcComposes(crc: bv32, a: seq<bool>, b: seq<bool>)
    ensures BitCrc(crc, a + b) == BitCrc(BitCrc(crc, a), b)
    decreases |a|
  {
    hide FeedBit;
    if a == [] {
      assert a + b == b;
    } else {
      assert (a + b)[1..] == a[1..] + b;
      BitCrcComposes(FeedBit(crc, a[0]), a[1..], b);
    }
  }

  /** The byte loop is the bit-serial register. */
  lemma {:induction false} CrcIsBitCrc(crc: bv32, data: seq<bv8>)
    ensures Crc(crc, data) == BitCrc(crc, Bits(data))
    decreases |data|
  {
    hide Xor, Widen, Shifts, BitCrc, BitWord;
    if data == [] {
      NoBits(crc);
    } else {
      FeedingBits(crc, ByteBits(data[0]));
      ByteIsItsBits(data[0]);
      BitCrcComposes(crc, ByteBits(data[0]), Bits(data[1..]));
      CrcIsBitCrc(Feed(crc, data[0]), data[1..]);
    }
  }

  lemma NoBits(crc: bv32)
    ensures BitCrc(crc, []) == crc
  {}

  // ----- Bursts -----

  lemma FeedBitIsInjective(x: bv32, y: bv32, b: bool)
    requires FeedBit(x, b) == FeedBit(y, b)
    ensures x == y
  {
    hide Xor, Shift, Bit;
    ShiftIsInjective(Xor(x, Bit(b)), Xor(y, Bit(b)));
    XorCommutes(x, Bit(b));
    XorCommutes(y, Bit(b));
    XorCancels(Bit(b), x, y);
  }

  /** No two registers are merged by a common tail, however long it is. */
  lemma {:induction false} TailKeepsRegistersApart(x: bv32, y: bv32, tail: seq<bool>)
    requires BitCrc(x, tail) == BitCrc(y, tail)
    ensures x == y
    decreases |tail|
  {
    hide FeedBit;
    if tail != [] {
      TailKeepsRegistersApart(FeedBit(x, tail[0]), FeedBit(y, tail[0]), tail[1..]);
      FeedBitIsInjective(x, y, tail[0]);
    }
  }

  lemma WindowIsDetected(start: bv32, head: seq<bool>, v: seq<bool>, w: seq<bool>, tail: seq<bool>)
    requires |v| == |w| <= 32
    ensures BitCrc(start, head + v + tail) == BitCrc(start, head + w + tail) <==> v == w
  {
    hide BitCrc, Xor, BitWord, Shifts;
    if BitCrc(start, head + v + tail) == BitCrc(start, head + w + tail) {
      var c := BitCrc(start, head);
      BitCrcComposes(start, head + v, tail);
      BitCrcComposes(start, head + w, tail);
      BitCrcComposes(start, head, v);
      BitCrcComposes(start, head, w);
      TailKeepsRegistersApart(BitCrc(c, v), BitCrc(c, w), tail);
      FeedingBits(c, v);
      FeedingBits(c, w);
      ShiftsAreInjective(Xor(c, BitWord(v)), Xor(c, BitWord(w)), |v|);
      XorCancels(c, BitWord(v), BitWord(w));
      BitWordIsInjective(v, w);
    }
  }

  /** Two messages of any equal length that differ only inside 32 consecutive bits, wherever these start, never collide. */
  lemma BitBurstsAreDetected(start: bv32, a: seq<bv8>, b: seq<bv8>, s: nat)
    requires |a| == |b|
    requires forall k | 0 <= k < 8 * |a| && BitAt(a, k) != BitAt(b, k) :: s <= k < s + 32
    ensures Crc(start, a) == Crc(start, b) <==> a == b
  {
    hide Crc, BitCrc, BitAt, Bits;
    var x, y := Bits(a), Bits(b);
    CrcIsBitCrc(start, a);
    CrcIsBitCrc(start, b);
    if BitCrc(start, x) == BitCrc(start, y) {
      forall k | 0 <= k < |x| && !(s <= k < s + 32)
        ensures x[k] == y[k]
      {
        BitsAt(a, k);
        BitsAt(b, k);
      }
      var from := if s < |x| then s else |x|;
      var to := if s + 32 < |x| then s + 32 else |x|;
      assert x == x[..from] + x[from..to] + x[to..];
      assert y == x[..from] + y[from..to] + x[to..];
      WindowIsDetected(start, x[..from], x[from..to], y[from..to], x[to..]);
      BitsAreInjective(a, b);
    }
  }

  /** In particular, two messages that differ only inside four consecutive bytes never collide. */
  lemma BurstsAreDetected(start: bv32, head: seq<bv8>, v: seq<bv8>, w: seq<bv8>, tail: seq<bv8>)
    requires |v| == |w| <= 4
    ensures Crc(start, head + v + tail) == Crc(start, head + w + tail) <==> v == w
  {
    hide Crc, BitCrc, Bits;
    CrcIsBitCrc(start, head + v + tail);
    CrcIsBitCrc(start, head + w + tail);
    BitsConcat(head + v, tail);
    BitsConcat(head + w, tail);
    BitsConcat(head, v);
    BitsConcat(head, w);
    WindowIsDetected(start, Bits(head), Bits(v), Bits(w), Bits(tail));
    if Bits(v) == Bits(w) {
      BitsAreInjective(v, w);
    }
  }
}
