/** The 32-bit compact encoding of targets and the proof of work computed from it
    (src/arith_uint256.cpp, src/chain.cpp). */
module CompactBits {

  import opened Limbs
  import opened ArithUint

  const SIGN := 0x80_0000
  const UNIT := 0x100_0000

  /** 256^n. */
  function Bytes(n: nat): (r: nat)
    ensures r > 0
  {
    Pow2(8 * n)
  }

  function Size(c: nat): nat { c / UNIT }

  function Mantissa(c: nat): (m: nat)
    ensures m < SIGN
  {
    c % SIGN
  }

  predicate SignBit(c: nat) { c / SIGN % 2 == 1 }

  /** The number a compact encoding stands for, before it is cut to 256 bits: the mantissa
      times 256^(size - 3), rounded down. */
  function Magnitude(c: nat): nat {
    if Size(c) <= 3 then
      DivMod(Mantissa(c), Bytes(3 - Size(c)));
      Mantissa(c) / Bytes(3 - Size(c))
    else
      MulNonNegative(Mantissa(c), Bytes(Size(c) - 3));
      Mantissa(c) * Bytes(Size(c) - 3)
  }

  /** How many bytes a number takes. */
  function ByteLength(v: nat): nat {
    if v == 0 then 0 else 1 + ByteLength(v / 256)
  }

  /** The three leading bytes. */
  function Leading(v: nat): nat {
    if ByteLength(v) <= 3 then
      MulNonNegative(v, Bytes(3 - ByteLength(v)));
      v * Bytes(3 - ByteLength(v))
    else
      DivMod(v, Bytes(ByteLength(v) - 3));
      v / Bytes(ByteLength(v) - 3)
  }

  /** The compact encoding of v. */
  function Compact(v: nat): nat {
    if Leading(v) >= SIGN then (ByteLength(v) + 1) * UNIT + Leading(v) / 256
    else ByteLength(v) * UNIT + Leading(v)
  }

  /** The encodings in lowest terms: no sign, and the top byte of the number in the top byte
      of the mantissa unless that would read as a sign. */
  predicate Canonical(c: nat) {
    c == 0 || (!SignBit(c) && Size(c) > 0 && Mantissa(c) >= SIGN / 256
               && (Size(c) < 3 ==> Mantissa(c) % Bytes(3 - Size(c)) == 0))
  }

  // ----- powers of 256 -----

  lemma BytesUp(n: nat)
    ensures Bytes(n + 1) == 256 * Bytes(n)
  {
    Pow2Add(8, 8 * n);
    assert Pow2(8) == 256;
    assert 8 * (n + 1) == 8 + 8 * n;
  }

  lemma SmallBytes()
    ensures Bytes(0) == 1 && Bytes(1) == 256 && Bytes(2) == 0x1_0000 && Bytes(3) == UNIT
  {
    BytesUp(0);
    BytesUp(1);
    BytesUp(2);
  }

  lemma BytesMonotone(m: nat, n: nat)
    requires m <= n
    ensures Bytes(m) <= Bytes(n)
  {
    Pow2Monotone(8 * m, 8 * n);
  }

  lemma BytesAdd(m: nat, n: nat)
    ensures Bytes(m + n) == Bytes(m) * Bytes(n)
  {
    Pow2Add(8 * m, 8 * n);
    assert 8 * (m + n) == 8 * m + 8 * n;
  }

  /** The byte length is the power of 256 that first exceeds the number. */
  lemma {:induction false} LengthBounds(v: nat)
    ensures v < Bytes(ByteLength(v))
    ensures v > 0 ==> ByteLength(v) > 0 && Bytes(ByteLength(v) - 1) <= v
  {
    hide Bytes;
    if v > 0 {
      var n := ByteLength(v / 256);
      LengthBounds(v / 256);
      BytesUp(n);
      if v / 256 > 0 {
        BytesUp(n - 1);
      } else {
        SmallBytes();
      }
    }
  }

  lemma LengthUnique(v: nat, n: nat)
    requires n > 0 && Bytes(n - 1) <= v < Bytes(n)
    ensures ByteLength(v) == n
  {
    hide Bytes;
    LengthBounds(v);
    var m := ByteLength(v);
    if m < n {
      BytesMonotone(m, n - 1);
    } else if m > n {
      BytesMonotone(n, m - 1);
    }
  }

  lemma LengthOfBits(v: nat, bits: nat)
    requires bits == 0 <==> v == 0
    requires bits > 0 ==> Pow2(bits - 1) <= v < Pow2(bits)
    ensures ByteLength(v) == (bits + 7) / 8
  {
    if bits > 0 {
      var n := (bits + 7) / 8;
      Pow2Monotone(8 * (n - 1), bits - 1);
      Pow2Monotone(bits, 8 * n);
      LengthUnique(v, n);
    }
  }

  // ----- fields -----

  lemma Fields(size: nat, mantissa: nat)
    requires mantissa < SIGN
    ensures Size(size * UNIT + mantissa) == size && Mantissa(size * UNIT + mantissa) == mantissa
    ensures !SignBit(size * UNIT + mantissa)
  {
    var c := size * UNIT + mantissa;
    DivUnique(c, UNIT, size, mantissa);
    DivUnique(c, SIGN, 2 * size, mantissa);
  }

  lemma Unpack(c: nat)
    requires !SignBit(c)
    ensures c == Size(c) * UNIT + Mantissa(c)
  {
    DivMod(c, SIGN);
    var q := c / SIGN / 2;
    assert c / SIGN == 2 * q;
    DivUnique(c, UNIT, q, Mantissa(c));
  }

  // ----- what encoding keeps -----

  /** The leading bytes: exact for short numbers, otherwise the number divided by a power of
      256; three full bytes unless the number is short. */
  lemma LeadingBounds(v: nat)
    ensures Leading(v) < UNIT
    ensures v > 0 ==> Leading(v) >= UNIT / 256
    ensures ByteLength(v) <= 3 ==> Leading(v) % Bytes(3 - ByteLength(v)) == 0
    ensures ByteLength(v) <= 3 ==> Leading(v) / Bytes(3 - ByteLength(v)) == v
    ensures ByteLength(v) > 3 ==>
              Leading(v) * Bytes(ByteLength(v) - 3) <= v < (Leading(v) + 1) * Bytes(ByteLength(v) - 3)
  {
    hide Bytes, ByteLength;
    SmallBytes();
    LengthBounds(v);
    var n := ByteLength(v);
    if n <= 3 {
      var p := Bytes(3 - n);
      BytesAdd(n, 3 - n);
      MulStrict(v, Bytes(n), p);
      if v > 0 {
        BytesAdd(n - 1, 3 - n);
        MulMonotone(Bytes(n - 1), v, p);
      }
      DivUnique(v * p, p, v, 0);
    } else {
      var p := Bytes(n - 3);
      DivMod(v, p);
      Distribute(p, v / p, 1);
      BytesAdd(3, n - 3);
      DivBounds(v, p, UNIT);
      BytesAdd(2, n - 3);
      if v / p < UNIT / 256 {
        MulMonotone(v / p + 1, UNIT / 256, p);
      }
    }
  }

  /** Encoding rounds down: exactly for numbers below 2^15 and for all of at most two bytes,
      otherwise by less than one unit of the mantissa's last place. The result fits 32 bits
      for every 256-bit number and is in lowest terms. */
  lemma CompactRounds(v: nat)
    ensures Canonical(Compact(v)) && !SignBit(Compact(v))
    ensures Magnitude(Compact(v)) <= v
    ensures Size(Compact(v)) <= 3 ==> Magnitude(Compact(v)) == v
    ensures Size(Compact(v)) > 3 ==> v < Magnitude(Compact(v)) + Bytes(Size(Compact(v)) - 3)
    ensures v < Bytes(32) ==> Size(Compact(v)) <= 33 && Compact(v) < 0x1_0000_0000
  {
    hide Bytes, ByteLength, Leading;
    LeadingBounds(v);
    LengthBounds(v);
    SmallBytes();
    var n, c := ByteLength(v), Leading(v);
    if v == 0 {
      assert n == 0 by { ZeroLength(); }
      assert c == 0 by { DivMod(c, Bytes(3)); }
    }
    if v < Bytes(32) && n > 32 {
      BytesMonotone(32, n - 1);
    }
    if c < SIGN {
      Fields(n, c);
      if n > 3 {
        Distribute(Bytes(n - 3), c, 1);
      }
    } else {
      Fields(n + 1, c / 256);
      Dropped(v, n, c);
    }
  }

  lemma ZeroLength()
    ensures ByteLength(0) == 0
  {
  }

  /** Dropping the last byte of a mantissa that would read as negative. */
  lemma Dropped(v: nat, n: nat, c: nat)
    requires n > 0 && c < UNIT
    requires n <= 3 ==> c % Bytes(3 - n) == 0 && c / Bytes(3 - n) == v
    requires n > 3 ==> c * Bytes(n - 3) <= v < (c + 1) * Bytes(n - 3)
    ensures n < 3 ==> c / 256 / Bytes(2 - n) == v && c / 256 % Bytes(2 - n) == 0
    ensures n >= 3 ==> c / 256 * Bytes(n - 2) <= v < c / 256 * Bytes(n - 2) + Bytes(n - 2)
  {
    hide Bytes;
    SmallBytes();
    if n < 3 {
      var p := Bytes(2 - n);
      BytesUp(2 - n);
      DivMod(c, 256 * p);
      Commute(v, 256, p);
      assert c == 256 * (v * p);
      DivUnique(c / 256, p, v, 0);
    } else {
      var p := Bytes(n - 3);
      BytesUp(n - 3);
      var q := c / 256;
      Commute(q, 256, p);
      MulMonotone(256 * q, c, p);
      MulMonotone(c + 1, 256 * q + 256, p);
      Distribute(p, 256 * q, 256);
      Commute(256, q, p);
      if n == 3 {
        assert c * p == c && v == c by { DivUnique(c, 1, c, 0); }
      }
    }
  }

  /** Decoding an encoding in lowest terms and encoding again gives it back: together with
      CompactRounds, the encodings in lowest terms are exactly those that are produced. */
  lemma CanonicalRoundTrip(c: nat)
    requires Canonical(c)
    ensures Compact(Magnitude(c)) == c
  {
    hide Bytes, ByteLength;
    SmallBytes();
    if c == 0 {
      DivUnique(0, UNIT, 0, 0);
      ZeroLength();
    } else {
      Unpack(c);
      var n, m, v := Size(c), Mantissa(c), Magnitude(c);
      if n > 3 {
        CanonicalLong(n, m, v);
      } else {
        CanonicalShort(n, m, v);
      }
    }
  }

  lemma CanonicalLong(n: nat, m: nat, v: nat)
    requires n > 3 && SIGN / 256 <= m < SIGN && v == m * Bytes(n - 3)
    ensures Compact(v) == n * UNIT + m
  {
    hide Bytes, ByteLength;
    SmallBytes();
    var p := Bytes(n - 3);
    BytesAdd(3, n - 3);
    BytesAdd(2, n - 3);
    MulStrict(m, UNIT, p);
    if m >= 0x1_0000 {
      MulMonotone(0x1_0000, m, p);
      LengthUnique(v, n);
      DivUnique(v, p, m, 0);
    } else {
      BytesAdd(1, n - 3);
      BytesUp(n - 4);
      BytesAdd(2, n - 4);
      BytesAdd(1, n - 4);
      MulStrict(m, 0x1_0000, p);
      MulMonotone(256, m, p);
      LengthUnique(v, n - 1);
      var h := Bytes(n - 4);
      Commute(m, 256, h);
      assert v == 256 * m * h;
      DivUnique(v, h, 256 * m, 0);
      assert n == 4 ==> h == 1;
    }
  }

  lemma CanonicalShort(n: nat, m: nat, v: nat)
    requires 0 < n <= 3 && SIGN / 256 <= m < SIGN && v == m / Bytes(3 - n)
    requires n < 3 ==> m % Bytes(3 - n) == 0
    ensures Compact(v) == n * UNIT + m
  {
    hide Bytes, ByteLength;
    SmallBytes();
    if n == 1 {
      LengthUnique(v, 1);
    } else if n == 2 {
      LengthUnique(v, if v < 256 then 1 else 2);
    } else {
      LengthUnique(v, if v < 0x1_0000 then 2 else 3);
    }
  }

  // ----- decoding and encoding in place -----

  /** Decodes into n, reporting a negative sign and a number too large for 256 bits. */
  method SetCompact(n: BaseUint, nCompact: nat) returns (negative: bool, overflow: bool)
    requires n.Valid() && n.width == 8 && nCompact < 0x1_0000_0000
    modifies n.pn
    ensures n.Valid() && n.Value() == Magnitude(nCompact) % Pow2(256)
    ensures negative <==> SignBit(nCompact) && Magnitude(nCompact) != 0
    ensures overflow <==> Magnitude(nCompact) >= Pow2(256)
  {
    hide Bytes, Pow2, Weight, Val;
    var nSize := nCompact / UNIT;
    var nWord := nCompact % SIGN;
    WeightPow2(8);
    if nSize <= 3 {
      DivBounds(nWord, Bytes(3 - nSize), SIGN) by { MulMonotone(1, Bytes(3 - nSize), SIGN); }
      nWord := nWord / Pow2(8 * (3 - nSize));
      assert nWord == Magnitude(nCompact) by { BytesIs(3 - nSize); }
      n.Set(nWord);
    } else {
      n.Set(nWord);
      n.ShiftLeft(8 * (nSize - 3));
      BytesIs(nSize - 3);
    }
    ShortFits(nWord);
    negative := nWord != 0 && SignBit(nCompact);
    overflow := nWord != 0 && (nSize > 34 || (nWord > 0xff && nSize > 33) || (nWord > 0xffff && nSize > 32));
    if nSize > 3 {
      OverflowTest(nWord, nSize);
      MulZero(nWord, Bytes(nSize - 3));
    }
  }

  lemma BytesIs(n: nat)
    ensures Bytes(n) == Pow2(8 * n)
  {
  }

  lemma MulZero(a: nat, b: nat)
    requires b > 0
    ensures a * b == 0 <==> a == 0
  {
    if a > 0 {
      MulMonotone(1, a, b);
    }
  }

  lemma ShortFits(v: nat)
    ensures v < SIGN ==> v < Pow2(256) && v % Pow2(256) == v
  {
    hide Pow2, Bytes;
    SmallBytes();
    BytesMonotone(3, 32);
    BytesIs(32);
    if v < SIGN {
      DivUnique(v, Pow2(256), 0, v);
    }
  }

  /** The source's test on word and size says exactly when the number passes 2^256. */
  lemma OverflowTest(m: nat, n: nat)
    requires m < SIGN && n > 3
    ensures m * Bytes(n - 3) >= Pow2(256)
       <==> (m != 0 && (n > 34 || (m > 0xff && n > 33) || (m > 0xffff && n > 32)))
  {
    hide Bytes, Pow2;
    BytesIs(32);
    SmallBytes();
    var p := Bytes(n - 3);
    if n > 34 {
      BytesMonotone(32, n - 3);
      if m > 0 {
        MulMonotone(1, m, p);
      }
    } else if n == 34 {
      BytesUp(31);
    } else if n == 33 {
      BytesAdd(30, 2);
      if m >= 0x1_0000 {
        MulMonotone(0x1_0000, m, p);
      } else {
        MulStrict(m, 0x1_0000, p);
      }
      Commute(Bytes(30), 0x1_0000, 1);
    } else {
      MulStrict(m, UNIT, p);
      BytesAdd(n - 3, 3);
      Commute(p, UNIT, 1);
      BytesMonotone(n, 32);
    }
  }

  /** Encodes n. The two assertions of the source hold for every 256-bit number. */
  method GetCompact(n: BaseUint, fNegative: bool) returns (nCompact: nat)
    requires n.Valid() && n.width == 8
    ensures nCompact == Compact(n.Value()) + (if fNegative && Mantissa(Compact(n.Value())) != 0 then SIGN else 0)
    ensures nCompact < 0x1_0000_0000
  {
    hide Bytes, Pow2, Weight, Val, ByteLength, Compact;
    ghost var v := n.Value();
    n.Bounded();
    WeightPow2(8);
    BytesIs(32);
    CompactRounds(v);
    LeadingBounds(v);
    SmallBytes();
    var bits := n.Bits();
    LengthOfBits(v, bits);
    LengthBounds(v);
    var nSize := (bits + 7) / 8;
    if nSize <= 3 {
      var low := n.GetLow64();
      BytesMonotone(nSize, 3);
      assert low == v by { DivUnique(v, BASE * BASE, 0, v); }
      BytesIs(3 - nSize);
      nCompact := low * Pow2(8 * (3 - nSize)) % BASE;
      assert nCompact == Leading(v) by { DivUnique(Leading(v), BASE, 0, Leading(v)); }
    } else {
      var bn := new BaseUint.Copy(n);
      bn.ShiftRight(8 * (nSize - 3));
      BytesIs(nSize - 3);
      var low := bn.GetLow64();
      assert low == Leading(v) by { DivUnique(Leading(v), BASE * BASE, 0, Leading(v)); }
      nCompact := low % BASE;
      assert nCompact == Leading(v) by { DivUnique(Leading(v), BASE, 0, Leading(v)); }
    }
    CompactOf(v);
    if nCompact / SIGN % 2 == 1 {
      nCompact := nCompact / 256;
      nSize := nSize + 1;
    }
    assert nCompact < SIGN;
    assert nSize < 256;
    Fields(nSize, nCompact);
    nCompact := Pack(nSize, nCompact, fNegative);
  }

  /** Size, sign and mantissa in one word. */
  method Pack(nSize: nat, word: nat, fNegative: bool) returns (nCompact: nat)
    requires word < SIGN
    ensures nCompact == nSize * UNIT + word + (if fNegative && word != 0 then SIGN else 0)
  {
    hide Pow2, BitOr;
    Fields(nSize, word);
    OrSize(nSize, word);
    nCompact := BitOr(word, nSize * UNIT);
    if fNegative && nCompact % SIGN != 0 {
      SignClear(nCompact);
      BitOrSet(nCompact, 23);
      nCompact := BitOr(nCompact, SIGN);
    }
  }

  lemma CompactOf(v: nat)
    ensures Leading(v) / SIGN % 2 == 1 <==> Leading(v) >= SIGN
    ensures Compact(v) == if Leading(v) >= SIGN then (ByteLength(v) + 1) * UNIT + Leading(v) / 256
                          else ByteLength(v) * UNIT + Leading(v)
  {
    hide Bytes, ByteLength, Leading;
    LeadingBounds(v);
  }

  lemma PowUnit()
    ensures Pow2(24) == UNIT && Pow2(23) == SIGN
  {
    assert Pow2(8) == 256;
    Pow2Add(8, 8);
    Pow2Add(16, 8);
    Pow2Add(16, 7);
  }

  lemma OrSize(size: nat, c: nat)
    requires c < SIGN
    ensures BitOr(c, size * UNIT) == size * UNIT + c
  {
    hide Pow2, BitOr;
    PowUnit();
    BitOrDisjoint(size, c, 24);
    var x := Pow2(24) * size;
    assert x == size * UNIT;
  }

  lemma SignClear(c: nat)
    requires !SignBit(c)
    ensures c / Pow2(23) % 2 == 0 && Pow2(23) == SIGN
  {
    hide Pow2;
    PowUnit();
  }

  /** The expected number of hashes behind a header with these target bits: exactly
      2^256 / (target + 1), and nothing for a target that is negative, too large or zero. */
  method GetBlockProof(nBits: nat) returns (proof: BaseUint)
    requires nBits < 0x1_0000_0000
    ensures proof.Valid() && proof.width == 8
    ensures proof.Value() == BlockProof(nBits)
  {
    hide Bytes, Pow2, Weight, Val, Magnitude, BlockProof;
    ProofCases(nBits);
    ghost var t := Magnitude(nBits);
    var bnTarget := new BaseUint(8);
    var fNegative, fOverflow := SetCompact(bnTarget, nBits);
    WeightPow2(8);
    if fNegative || fOverflow {
      proof := new BaseUint.FromUint64(8, 0);
      return;
    }
    DivUnique(t, Pow2(256), 0, t);
    var zero := bnTarget.EqualTo(0);
    if zero {
      proof := new BaseUint.FromUint64(8, 0);
      return;
    }
    TargetRoom(nBits);
    proof := ProofOf(bnTarget);
  }

  /** ~t / (t + 1) + 1. */
  method ProofOf(bnTarget: BaseUint) returns (proof: BaseUint)
    requires bnTarget.Valid() && bnTarget.width == 8 && 0 < bnTarget.Value() && bnTarget.Value() + 1 < Pow2(256)
    ensures proof.Valid() && proof.width == 8 && proof.Value() == Pow2(256) / (bnTarget.Value() + 1)
  {
    hide Pow2, Weight, Val;
    ghost var t := bnTarget.Value();
    WeightPow2(8);
    proof := bnTarget.Complement();
    var divisor := new BaseUint.Copy(bnTarget);
    var one := new BaseUint.FromUint64(8, 1);
    divisor.AddAssign(one);
    assert divisor.Value() == t + 1 by { DivUnique(t + 1, Pow2(256), 0, t + 1); }
    var r := proof.DivAssign(divisor);
    assert r.Ok?;
    one := new BaseUint.FromUint64(8, 1);
    ProofSum(t, Pow2(256));
    proof.AddAssign(one);
  }

  ghost function BlockProof(nBits: nat): nat {
    var t := Magnitude(nBits);
    if SignBit(nBits) || t >= Pow2(256) || t == 0 then 0 else Pow2(256) / (t + 1)
  }

  lemma ProofCases(nBits: nat)
    ensures var t := Magnitude(nBits);
            BlockProof(nBits) ==
            if SignBit(nBits) && t != 0 then 0
            else if t >= Pow2(256) || t == 0 then 0
            else Pow2(256) / (t + 1)
  {
    hide Magnitude, Pow2;
  }

  /** Adding one to a target that fits never wraps. */
  lemma TargetRoom(c: nat)
    requires Magnitude(c) < Pow2(256)
    ensures Magnitude(c) + 1 < Pow2(256)
  {
    hide Bytes, Pow2;
    SmallBytes();
    BytesMonotone(3, 32);
    BytesIs(32);
    if Size(c) <= 3 {
      var p := Bytes(3 - Size(c));
      DivBounds(Mantissa(c), p, SIGN) by { MulMonotone(1, p, SIGN); }
    } else {
      BytesUp(Size(c) - 4);
      BytesUp(31);
      Commute(Mantissa(c), 256, Bytes(Size(c) - 4));
      assert Magnitude(c) == 256 * (Mantissa(c) * Bytes(Size(c) - 4));
    }
  }

  /** The identity that keeps 2^256 out of the computation. */
  lemma ProofSum(t: nat, w: nat)
    requires 0 < t && t + 1 < w
    ensures (w - 1 - t) / (t + 1) + 1 == w / (t + 1)
    ensures w / (t + 1) < w && (w / (t + 1)) % w == w / (t + 1)
  {
    var d := t + 1;
    DivMod(w, d);
    var q := w / d;
    Distribute(d, q, 1);
    DivUnique(w - d, d, q - 1, w % d);
    MulMonotone(2, d, q);
    assert q != 0;
    DivUnique(q, w, 0, q);
  }
}
