/** Fixed-width unsigned integers held as an array of 32-bit limbs, least significant first
    (src/arith_uint256.h, src/arith_uint256.cpp). The width is a parameter of the class, as
    in the template; `Modulus` is 2^(32 * width). */
module ArithUint {

  import opened Limbs

  /** Carrying one more limb of a sum. */
  lemma SumStep(done: seq<nat>, carry: nat, total: int, add: nat, n: nat)
    requires Val(done) + carry * Weight(|done|) == total && n == carry + add
    ensures Val(done + [n % BASE]) + (n / BASE) * Weight(|done| + 1) == total + add * Weight(|done|)
  {
    var w := Weight(|done|);
    CarryStep(Val(done), carry, w, total, add, n);
    ValPush(done, n % BASE);
    assert Weight(|done| + 1) == BASE * w;
  }

  lemma AddStep(done: seq<nat>, carry: nat, a: seq<nat>, b: seq<nat>, n: nat)
    requires |done| < |a| == |b|
    requires Val(done) + carry * Weight(|done|) == Val(a[..|done|]) + Val(b[..|done|])
    requires n == carry + a[|done|] + b[|done|]
    ensures Val(done + [n % BASE]) + (n / BASE) * Weight(|done| + 1)
         == Val(a[..|done| + 1]) + Val(b[..|done| + 1])
  {
    hide Val, Weight;
    var i := |done|;
    SumStep(done, carry, Val(a[..i]) + Val(b[..i]), a[i] + b[i], n);
    assert a[..i + 1] == a[..i] + [a[i]] && b[..i + 1] == b[..i] + [b[i]];
    ValPush(a[..i], a[i]);
    ValPush(b[..i], b[i]);
    Distribute(Weight(i), a[i], b[i]);
  }

  lemma ScaleStep(done: seq<nat>, carry: nat, a: seq<nat>, x: nat, n: nat)
    requires |done| < |a|
    requires Val(done) + carry * Weight(|done|) == x * Val(a[..|done|])
    requires n == carry + x * a[|done|]
    ensures Val(done + [n % BASE]) + (n / BASE) * Weight(|done| + 1) == x * Val(a[..|done| + 1])
  {
    hide Val, Weight;
    var i := |done|;
    MulNonNegative(x, a[i]);
    SumStep(done, carry, x * Val(a[..i]), x * a[i], n);
    assert a[..i + 1] == a[..i] + [a[i]];
    ValPush(a[..i], a[i]);
    Distribute(x, Val(a[..i]), a[i] * Weight(i));
    Commute(x, a[i], Weight(i));
  }

  /** One limb of one row of the schoolbook product. */
  lemma RowStep(a: seq<nat>, carry: nat, total: int, x: nat, b: seq<nat>, i: nat, j: nat, n: nat)
    requires i < |b| && i + j < |a|
    requires Val(a) + carry * Weight(i + j) == total + x * Weight(j) * Val(b[..i])
    requires n == carry + a[i + j] + x * b[i]
    ensures Val(a[i + j := n % BASE]) + (n / BASE) * Weight(i + j + 1)
         == total + x * Weight(j) * Val(b[..i + 1])
  {
    var w := Weight(i + j);
    MulNonNegative(x, b[i]);
    ValUpdate(a, i + j, n % BASE);
    var sum := total + x * Weight(j) * Val(b[..i]) - a[i + j] * w;
    CarryStep(Val(a) - a[i + j] * w, carry, w, sum, a[i + j] + x * b[i], n);
    assert Weight(i + j + 1) == BASE * w;
    assert b[..i + 1] == b[..i] + [b[i]];
    ValPush(b[..i], b[i]);
    Distribute(x * Weight(j), Val(b[..i]), b[i] * Weight(i));
    WeightAdd(j, i);
    assert w == Weight(j) * Weight(i) by { assert i + j == j + i; }
    Regroup(x, Weight(j), b[i], Weight(i));
    Distribute(w, a[i + j], x * b[i]);
  }

  lemma Regroup(a: int, b: int, c: int, d: int)
    ensures (a * b) * (c * d) == (a * c) * (b * d)
  {
    Commute(a * b, c, d);
    Commute(a, b, c);
    Commute(a, c, b);
    Commute(a * c, b, d);
  }

  /** A finished row: what ran off the top is a multiple of the modulus. */
  lemma RowEnd(row: int, carry: nat, before: int, q: int, a: seq<nat>, j: nat, b: seq<nat>)
    returns (q': int)
    requires j < |a| == |b|
    requires row + carry * Weight(|a|) == before + a[j] * Weight(j) * Val(b[..|a| - j])
    requires before + q * Weight(|a|) == Val(a[..j]) * Val(b)
    ensures row + q' * Weight(|a|) == Val(a[..j + 1]) * Val(b)
  {
    hide Val, Weight;
    var k := |a| - j;
    ValSplit(b, k);
    WeightAdd(j, k);
    assert a[..j + 1] == a[..j] + [a[j]];
    ValPush(a[..j], a[j]);
    q' := RowSum(row, carry, before, q, Val(a[..j]), a[j], Weight(j), Weight(k), Weight(|a|), Val(b[..k]), Val(b[k..]),
                 Val(b), Val(a[..j + 1]));
  }

  lemma RowSum(row: int, carry: int, before: int, q: int, done: int, x: int, wj: int, wk: int, w: int, low: int,
               high: int, vb: int, next: int)
    returns (q': int)
    requires row + carry * w == before + x * wj * low
    requires before + q * w == done * vb && w == wj * wk && vb == low + wk * high && next == done + x * wj
    ensures row + q' * w == next * vb
  {
    var y := x * high;
    q' := q + carry + y;
    Distribute(vb, done, x * wj);
    Distribute(x * wj, low, wk * high);
    Regroup(x, wj, high, wk);
    Commute(wk, high, 1);
    Distribute(w, q + carry, y);
    Distribute(w, q, carry);
  }

  // ----- shifts -----

  lemma Pow2Split(s: nat)
    requires s <= 32
    ensures Pow2(s) * Pow2(32 - s) == BASE
  {
    Pow2Add(s, 32 - s);
    Pow2Base();
  }

  /** The bits of x that a left shift by s pushes out of the limb, and those it keeps. */
  lemma ShiftParts(x: nat, s: nat)
    requires x < BASE && s < 32
    ensures x / Pow2(32 - s) == x * Pow2(s) / BASE
    ensures x * Pow2(s) % BASE == Pow2(s) * (x % Pow2(32 - s))
    ensures x / Pow2(32 - s) < Pow2(s)
  {
    var p, r := Pow2(s), Pow2(32 - s);
    Pow2Split(s);
    DivMod(x, r);
    Distribute(p, x / r * r, x % r);
    Commute(x / r, r, p);
    Commute(p, r, 1);
    MulStrict(x % r, r, p);
    MulNonNegative(x % r, p);
    DivUnique(x * p, BASE, x / r, x % r * p);
    DivBounds(x, r, p);
  }

  /** The high part of limb j - 1 that a left shift moves into the limb above. */
  ghost function Spill(a: seq<nat>, s: nat, j: nat): nat
    requires j <= |a|
  {
    if j == 0 then 0 else a[j - 1] * Pow2(s) / BASE
  }

  /** The first j limbs of a have been shifted into p by k limbs and s bits. */
  ghost predicate ShiftedTo(a: seq<nat>, p: seq<nat>, k: nat, s: nat, j: nat) {
    && |p| == |a| && j + k <= |a|
    && Val(p[..j + k]) + Spill(a, s, j) * Weight(j + k) == Weight(k) * (Pow2(s) * Val(a[..j]))
    && (j + k < |a| ==> p[j + k] == Spill(a, s, j))
    && (forall m | j + k < m < |a| :: p[m] == 0)
  }

  lemma ShiftStart(a: seq<nat>, p: seq<nat>, k: nat, s: nat)
    requires |p| == |a| && k < |a|
    requires forall i | 0 <= i < |p| :: p[i] == 0
    ensures ShiftedTo(a, p, k, s, 0)
  {
    ValZeros(p[..k]);
    ValZeros(a[..0]);
    Commute(Weight(k), Pow2(s), 0);
  }

  /** The limb written in one round: the spill of the limb below, or-ed with what stays. */
  lemma ShiftStep(a: seq<nat>, p: seq<nat>, k: nat, s: nat, j: nat, p': seq<nat>)
    requires Digits(a) && s < 32 && j + k < |a|
    requires ShiftedTo(a, p, k, s, j)
    requires |p'| == |a|
    requires p'[j + k] == BitOr(Spill(a, s, j), a[j] * Pow2(s) % BASE)
    requires j + k + 1 < |a| ==> p'[j + k + 1] == Spill(a, s, j + 1)
    requires forall m | 0 <= m < |a| && m != j + k && m != j + k + 1 :: p'[m] == p[m]
    ensures ShiftedTo(a, p', k, s, j + 1)
    ensures p'[j + k] == Spill(a, s, j) + a[j] * Pow2(s) % BASE
  {
    hide Val, Weight, Pow2;
    var low := Spill(a, s, j);
    var x := a[j] * Pow2(s);
    MulNonNegative(a[j], Pow2(s));
    ShiftParts(a[j], s);
    if j > 0 {
      ShiftParts(a[j - 1], s);
    }
    BitOrDisjoint(a[j] % Pow2(32 - s), low, s);
    assert p'[..j + k + 1] == p[..j + k] + [p'[j + k]];
    ValPush(p[..j + k], p'[j + k]);
    assert a[..j + 1] == a[..j] + [a[j]];
    ValPush(a[..j], a[j]);
    ShiftSum(Val(p[..j + k]), low, x, Weight(j + k), Weight(k), Weight(j), Pow2(s), Val(a[..j]), a[j]) by {
      WeightAdd(k, j);
      assert k + j == j + k;
    }
    assert Weight(j + 1 + k) == BASE * Weight(j + k) by {
      WeightUp(j + k);
      assert j + 1 + k == j + k + 1;
    }
    assert Spill(a, s, j + 1) == x / BASE;
  }

  lemma WeightUp(n: nat)
    ensures Weight(n + 1) == BASE * Weight(n)
  {
  }

  lemma ShiftSum(done: int, low: nat, x: nat, w: nat, wk: nat, wj: nat, p: nat, v: int, limb: nat)
    requires w == wk * wj && x == limb * p && w > 0
    requires done + low * w == wk * (p * v)
    ensures done + (low + x % BASE) * w + (x / BASE) * (BASE * w) == wk * (p * (v + limb * wj))
  {
    CarryStep(done, low, w, wk * (p * v), x, low + x);
    DivMod(x, BASE);
    assert done + low * w + x % BASE * w + x / BASE * (BASE * w) == wk * (p * v) + x * w by {
      Distribute(w, x / BASE * BASE, x % BASE);
      Commute(x / BASE, BASE, w);
    }
    Distribute(w, low, x % BASE);
    Distribute(p, v, limb * wj);
    Distribute(wk, p * v, p * (limb * wj));
    Commute(p, limb, wj);
    Commute(limb, p, wj);
    Commute(wk, x, wj);
  }

  lemma ShiftedAll(a: seq<nat>, p: seq<nat>, k: nat, s: nat, j: nat)
    requires j + k == |a| && ShiftedTo(a, p, k, s, j)
    ensures |p| == |a|
    ensures Val(p) + Spill(a, s, j) * Weight(|a|) == Weight(k) * (Pow2(s) * Val(a[..j]))
  {
    hide Val, Weight, Pow2;
    assert p[..j + k] == p;
  }

  lemma ShiftEnd(a: seq<nat>, p: seq<nat>, k: nat, s: nat, shift: nat)
    requires Digits(a) && Digits(p) && k < |a| && shift == 32 * k + s
    requires ShiftedTo(a, p, k, s, |a| - k)
    ensures Val(p) == Val(a) * Pow2(shift) % Weight(|a|)
  {
    hide Val, Weight, Pow2, ShiftedTo;
    var n := |a|;
    var j := n - k;
    var sh := Pow2(shift);
    WeightPow2(k);
    Pow2Add(32 * k, s);
    ValSplit(a, j);
    WeightAdd(k, j);
    var spill, low := Spill(a, s, j), Val(a[..j]);
    ShiftedAll(a, p, k, s, j);
    ShiftTotal(Val(p), spill, Weight(k), Weight(j), Weight(n), Pow2(s), low, Val(a[j..]), Val(a), sh) by {
      ValBound(p);
    }
  }

  lemma ShiftTotal(v: nat, spill: int, wk: int, wj: int, w: int, p: nat, low: int, high: int, va: nat, sh: nat)
    requires v + spill * w == wk * (p * low) && w == wk * wj && va == low + wj * high && sh == wk * p
    requires v < w
    ensures v == va * sh % w
  {
    var q := spill + p * high;
    Commute(wk, p, low);
    Distribute(sh, low, wj * high);
    Regroup(wk, p, wj, high);
    Distribute(w, spill, p * high);
    Commute(w, p * high, 1);
    Commute(sh, low, 1);
    Commute(sh, wj * high, 1);
    MulNonNegative(va, sh);
    var product := va * sh;
    assert v + q * w == product;
    ModPlus(v, q, product, w);
  }

  /** A shift of at least the whole width leaves nothing. */
  lemma ShiftedOut(a: seq<nat>, p: seq<nat>, shift: nat)
    requires Digits(a) && 32 * |a| <= shift
    requires |p| == |a| && forall i | 0 <= i < |p| :: p[i] == 0
    ensures Val(p) == Val(a) * Pow2(shift) % Weight(|a|)
    ensures Val(p) == Val(a) / Pow2(shift)
  {
    hide Val, Weight, Pow2;
    ValZeros(p);
    var n := |a|;
    WeightPow2(n);
    Pow2Add(32 * n, shift - 32 * n);
    var q := Val(a) * Pow2(shift - 32 * n);
    Commute(Val(a), Weight(n), Pow2(shift - 32 * n));
    Commute(q, Weight(n), 1);
    Commute(Weight(n), Val(a), Pow2(shift - 32 * n));
    MulNonNegative(Val(a), Pow2(shift));
    ModPlus(0, q, Val(a) * Pow2(shift), Weight(n));
    ValBound(a);
    Pow2Monotone(32 * n, shift);
    DivUnique(Val(a), Pow2(shift), 0, Val(a));
  }

  /** Limbs k to k + j of a have been shifted down into p by s bits. */
  ghost predicate LoweredTo(a: seq<nat>, p: seq<nat>, k: nat, s: nat, j: nat) {
    && |p| == |a| && j + k <= |a|
    && (j > 0 ==> Val(a[k..k + j]) == Val(p[..j]) * Pow2(s) + a[k] % Pow2(s))
    && (j > 0 ==> p[j - 1] == a[k + j - 1] / Pow2(s))
    && (forall m | j <= m < |a| :: p[m] == 0)
  }

  /** One round of a right shift: the low bits of the limb go to the top of the limb below. */
  lemma LowerStep(a: seq<nat>, p: seq<nat>, k: nat, s: nat, j: nat, p': seq<nat>)
    requires Digits(a) && s < 32 && j + k < |a|
    requires LoweredTo(a, p, k, s, j)
    requires |p'| == |a|
    requires p'[j] == a[k + j] / Pow2(s)
    requires j > 0 ==> p'[j - 1] == BitOr(p[j - 1], a[k + j] * Pow2(32 - s) % BASE) || (s == 0 && p'[j - 1] == p[j - 1])
    requires forall m | 0 <= m < |a| && m != j && m != j - 1 :: p'[m] == p[m]
    ensures LoweredTo(a, p', k, s, j + 1)
    ensures j > 0 ==> p'[j - 1] == p[j - 1] + a[k + j] % Pow2(s) * Pow2(32 - s)
  {
    hide Val, Weight, Pow2;
    var x, g := a[k + j], Pow2(s);
    DivMod(x, g);
    assert p'[..j + 1] == p'[..j] + [p'[j]];
    ValPush(p'[..j], p'[j]);
    var seg := a[k..k + j];
    assert a[k..k + (j + 1)] == seg + [x];
    ValPush(seg, x);
    if j == 0 {
      assert Weight(0) == 1 by { WeightPow2(0); PowZero(); }
      assert p'[..0] == [] && seg == [];
      ValZeros([]);
    } else {
      TopBits(p[j - 1], x, s, a[k + j - 1]);
      var y := x % g * Pow2(32 - s);
      if s == 0 {
        PowZero();
      }
      assert p'[j - 1] == p[j - 1] + y;
      assert p'[..j] == p[..j][j - 1 := p[j - 1] + y];
      ValUpdate(p[..j], j - 1, p[j - 1] + y);
      Distribute(Weight(j - 1), p[j - 1], y);
      LowerSum(Val(p[..j]), x, g, Pow2(32 - s), Weight(j - 1), a[k] % g) by {
        Pow2Split(s);
      }
      WeightUp(j - 1);
    }
  }

  lemma PowZero()
    ensures Pow2(0) == 1
  {
  }

  lemma TopBits(low: nat, x: nat, s: nat, limb: nat)
    requires s < 32 && low == limb / Pow2(s) && limb < BASE && x < BASE
    ensures s > 0 ==> BitOr(low, x * Pow2(32 - s) % BASE) == low + x % Pow2(s) * Pow2(32 - s)
    ensures s == 0 ==> x % Pow2(s) * Pow2(32 - s) == 0 && BitOr(low, x * Pow2(32 - s) % BASE) == low
  {
    hide Pow2;
    var p, r := Pow2(32 - s), Pow2(s);
    Pow2Split(s);
    DivMod(x, r);
    Distribute(p, x / r * r, x % r);
    Commute(x / r, r, p);
    MulStrict(x % r, r, p);
    MulNonNegative(x % r, p);
    DivUnique(x * p, BASE, x / r, x % r * p);
    DivBounds(limb, r, p);
    Commute(x % r, p, 1);
    BitOrDisjoint(x % r, low, 32 - s);
    if s == 0 {
      PowZero();
    }
  }

  lemma LowerSum(done: int, x: nat, g: nat, h: nat, w: nat, rest: int)
    requires g > 0 && g * h == BASE
    ensures (done + x % g * h * w + x / g * (BASE * w)) * g + rest == done * g + rest + x * (BASE * w)
  {
    var m := x % g;
    var q := x / g;
    DivMod(x, g);
    Distribute(g, done + m * h * w, q * (BASE * w));
    Distribute(g, done, m * h * w);
    Commute(m, h, w);
    Commute(g, m, h * w);
    Commute(g, h, w);
    Commute(g, q, BASE * w);
    Commute(q, g, BASE * w);
    Commute(m * h * w, g, 1);
    Commute(q * (BASE * w), g, 1);
    Distribute(BASE * w, q * g, m);
  }

  lemma LowerEnd(a: seq<nat>, p: seq<nat>, k: nat, s: nat, shift: nat)
    requires Digits(a) && k < |a| && shift == 32 * k + s
    requires LoweredTo(a, p, k, s, |a| - k)
    ensures Val(p) == Val(a) / Pow2(shift)
  {
    hide Val, Weight, Pow2;
    var n := |a|;
    var j := n - k;
    var g := Pow2(s);
    assert a[k..k + j] == a[k..];
    assert p == p[..j] + p[j..];
    ValAppend(p[..j], p[j..]);
    ValZeros(p[j..]);
    ValSplit(a, k);
    WeightPow2(k);
    Pow2Add(32 * k, s);
    var w := Weight(k);
    var r := a[k] % g;
    DivMod(a[k], g);
    ValBound(a[..k]);
    Distribute(w, Val(p) * g, r);
    Commute(w, Val(p), g);
    MulMonotone(r + 1, g, w);
    Distribute(w, r, 1);
    MulNonNegative(w, r);
    Commute(w, Weight(j), 0);
    assert Weight(j) * 0 == 0;
    DivUnique(Val(a), Pow2(shift), Val(p), Val(a[..k]) + w * r);
  }

  // ----- comparing, counting bits, setting bits -----

  /** The highest limb in which two numbers differ decides which is larger. */
  lemma TopLimb(a: seq<nat>, b: seq<nat>, i: nat)
    requires Digits(a) && Digits(b) && i < |a| == |b|
    requires a[i + 1..] == b[i + 1..] && a[i] < b[i]
    ensures Val(a) < Val(b)
  {
    hide Val, Weight;
    ValSplit(a, i + 1);
    ValSplit(b, i + 1);
    assert a[..i + 1] == a[..i] + [a[i]] && b[..i + 1] == b[..i] + [b[i]];
    ValPush(a[..i], a[i]);
    ValPush(b[..i], b[i]);
    ValBound(a[..i]);
    MulMonotone(a[i] + 1, b[i], Weight(i));
    Distribute(Weight(i), a[i], 1);
  }

  /** The highest set bit of the highest non-zero limb gives the length of the number. */
  lemma TopBit(a: seq<nat>, pos: nat, n: nat)
    requires Digits(a) && pos < |a| && n < 32
    requires forall i | pos < i < |a| :: a[i] == 0
    requires Pow2(n) <= a[pos] < Pow2(n + 1)
    ensures Pow2(32 * pos + n) <= Val(a) < Pow2(32 * pos + n + 1)
  {
    hide Val, Weight, Pow2;
    ValSplit(a, pos + 1);
    ValZeros(a[pos + 1..]);
    assert a[..pos + 1] == a[..pos] + [a[pos]];
    ValPush(a[..pos], a[pos]);
    ValBound(a[..pos]);
    var w := Weight(pos);
    assert Weight(pos + 1) * 0 == 0;
    WeightPow2(pos);
    Pow2Add(32 * pos, n);
    Pow2Add(32 * pos, n + 1);
    Commute(w, Pow2(n), 1);
    Commute(w, Pow2(n + 1), 1);
    MulMonotone(Pow2(n), a[pos], w);
    MulMonotone(a[pos] + 1, Pow2(n + 1), w);
    Distribute(w, a[pos], 1);
  }

  /** Setting bit j, clear so far, adds 2^j. */
  lemma {:induction false} BitOrSet(x: nat, j: nat)
    requires x / Pow2(j) % 2 == 0
    ensures BitOr(x, Pow2(j)) == x + Pow2(j)
  {
    if j == 0 {
      BitOrZero(x / 2);
    } else {
      var p := Pow2(j - 1);
      HalfOfQuotient(x, p);
      BitOrSet(x / 2, j - 1);
    }
  }

  lemma HalfOfQuotient(x: nat, p: nat)
    requires p > 0
    ensures x / 2 / p == x / (2 * p)
  {
    var q := x / (2 * p);
    DivMod(x, 2 * p);
    var r := x % (2 * p);
    Commute(q, 2, p);
    assert x / 2 == q * p + r / 2;
    DivUnique(x / 2, p, q, r / 2);
  }

  /** A bit index fits its limb, and above a clear tail there is room for it. */
  lemma BitFits(x: nat, s: nat)
    requires s < 32 && x < BASE && x % Pow2(s + 1) == 0
    ensures x / Pow2(s) % 2 == 0 && x + Pow2(s) < BASE
    ensures (x + Pow2(s)) % Pow2(s) == 0
  {
    hide Pow2;
    var p := Pow2(s);
    PowUp(s);
    var q := x / (2 * p);
    DivMod(x, 2 * p);
    Commute(q, 2, p);
    Distribute(p, 2 * q, 1);
    DivUnique(x, p, 2 * q, 0);
    DivUnique(x + p, p, 2 * q + 1, 0);
    Pow2Split(s + 1);
    var r := Pow2(31 - s);
    Commute(r, 2 * p, 1);
    DivBounds(x, 2 * p, r);
    MulMonotone(q + 1, r, 2 * p);
    Distribute(2 * p, q, 1);
    Commute(r, 2 * p, 1);
  }

  lemma PowUp(n: nat)
    ensures Pow2(n + 1) == 2 * Pow2(n)
  {
  }

  // ----- long division -----

  /** The state of the long division before the round for bit `shift`. */
  ghost predicate Dividing(num0: nat, d: nat, q: nat, num: nat, div: nat, shift: int) {
    && -1 <= shift
    && num0 == q * d + num
    && num < d * Pow2(shift + 1)
    && (shift >= 0 ==> div == d * Pow2(shift))
  }

  lemma DivStart(num: nat, d: nat, n: nat, m: nat)
    requires m <= n && num < Pow2(n) && d > 0 && Pow2(m) <= 2 * d && d < Pow2(m)
    ensures Dividing(num, d, 0, num, d * Pow2(n - m), n - m)
    ensures d * Pow2(n - m) < Pow2(n)
  {
    hide Pow2;
    var p := Pow2(n - m);
    Pow2Add(n - m, m);
    PowUp(n - m);
    MulStrict(d, Pow2(m), p);
    MulMonotone(Pow2(m), 2 * d, p);
    Commute(p, Pow2(m), 1);
    Commute(2, d, p);
  }

  lemma DivRound(num0: nat, d: nat, q: nat, num: nat, div: nat, shift: nat)
    requires d > 0 && Dividing(num0, d, q, num, div, shift)
    ensures num >= div ==> Dividing(num0, d, q + Pow2(shift), num - div, div / 2, shift - 1)
    ensures num < div ==> Dividing(num0, d, q, num, div / 2, shift - 1)
  {
    hide Pow2;
    var p := Pow2(shift);
    PowUp(shift);
    Commute(2, p, d);
    Distribute(d, q, p);
    Commute(p, d, 2);
    assert d * (2 * p) == 2 * div;
    if shift > 0 {
      var h := Pow2(shift - 1);
      PowUp(shift - 1);
      Commute(2, h, d);
      Commute(d, 2, h);
      assert div == 2 * (d * h);
    }
  }

  lemma DivDone(num0: nat, d: nat, q: nat, num: nat, div: nat)
    requires d > 0 && Dividing(num0, d, q, num, div, -1)
    ensures q == num0 / d && num == num0 % d
  {
    DivUnique(num0, d, q, num);
  }

  /** No bit of the quotient is set below the next one. */
  ghost predicate LowBitsClear(p: seq<nat>, shift: int) {
    shift >= 0 ==>
      && shift / 32 < |p|
      && p[shift / 32] % Pow2(shift % 32 + 1) == 0
      && forall m | 0 <= m < shift / 32 :: p[m] == 0
  }

  lemma ZeroModPow(n: nat)
    ensures 0 % Pow2(n) == 0
  {
  }

  lemma AllClear(p: seq<nat>, shift: nat)
    requires shift / 32 < |p| && forall i | 0 <= i < |p| :: p[i] == 0
    ensures LowBitsClear(p, shift)
  {
    ZeroModPow(shift % 32 + 1);
  }

  lemma NextBitClear(p: seq<nat>, shift: nat, p': seq<nat>)
    requires LowBitsClear(p, shift) && |p'| == |p| && Digits(p)
    requires p'[shift / 32] == p[shift / 32] || p'[shift / 32] == p[shift / 32] + Pow2(shift % 32)
    requires forall m | 0 <= m < |p| && m != shift / 32 :: p'[m] == p[m]
    ensures LowBitsClear(p', shift - 1)
  {
    hide Pow2;
    var k, s := shift / 32, shift % 32;
    if shift > 0 {
      if s == 0 {
        assert (shift - 1) / 32 == k - 1 && (shift - 1) % 32 == 31;
        ZeroModPow(32);
      } else {
        assert (shift - 1) / 32 == k && (shift - 1) % 32 == s - 1;
        BitFits(p[k], s);
        var q := p[k] / Pow2(s + 1);
        DivMod(p[k], Pow2(s + 1));
        PowUp(s);
        Commute(q, 2, Pow2(s));
        DivUnique(p[k], Pow2(s), 2 * q, 0);
      }
    }
  }

  datatype Result<T> = Ok(value: T) | Err(error: string)

  class BaseUint {

    const width: nat
    const pn: array<nat>

    ghost predicate Valid()
      reads pn
    {
      width >= 2 && pn.Length == width && Digits(pn[..])
    }

    ghost function Value(): (v: nat)
      reads pn
    {
      Val(pn[..])
    }

    /** One more than the largest number that fits. */
    ghost function Modulus(): (m: nat)
      ensures m > 0
    {
      Weight(width)
    }

    constructor (n: nat)
      requires n >= 2
      ensures Valid() && fresh(pn) && width == n && Value() == 0
      ensures forall i | 0 <= i < n :: pn[i] == 0
    {
      width := n;
      pn := new nat[n](_ => 0);
      new;
      ValZeros(pn[..]);
    }

    /** A copy. */
    constructor Copy(b: BaseUint)
      requires b.Valid()
      ensures Valid() && fresh(pn) && width == b.width && pn[..] == b.pn[..]
    {
      width := b.width;
      pn := new nat[b.width](i requires 0 <= i < b.pn.Length reads b.pn => b.pn[i]);
      new;
      assert pn[..] == b.pn[..];
    }

    constructor FromUint64(n: nat, b: nat)
      requires n >= 2 && b < BASE * BASE
      ensures Valid() && fresh(pn) && width == n && Value() == b
    {
      width := n;
      pn := new nat[n](_ => 0);
      new;
      Set(b);
    }

    lemma Bounded()
      requires Valid()
      ensures Value() < Modulus()
    {
      ValBound(pn[..]);
    }

    method Set(b: nat)
      requires width >= 2 && pn.Length == width && b < BASE * BASE
      modifies pn
      ensures Valid() && Value() == b
    {
      hide Val, Weight;
      DivMod(b, BASE);
      DivBounds(b, BASE, BASE);
      pn[0] := b % BASE;
      pn[1] := b / BASE;
      var i := 2;
      while i < width
        invariant 2 <= i <= width
        invariant pn[0] == b % BASE && pn[1] == b / BASE
        invariant forall m | 2 <= m < i :: pn[m] == 0
      {
        pn[i] := 0;
        i := i + 1;
      }
      assert pn[..] == [b % BASE] + ([b / BASE] + pn[2..]);
      ValAppend([b % BASE], [b / BASE] + pn[2..]);
      ValAppend([b / BASE], pn[2..]);
      ValOne(b % BASE);
      ValOne(b / BASE);
      ValZeros(pn[2..]);
      WeightUp(0);
      WeightZero();
    }

    method Assign(b: BaseUint)
      requires Valid() && b.Valid() && b.width == width
      modifies pn
      ensures Valid() && pn[..] == old(b.pn[..])
    {
      var i := 0;
      while i < width
        invariant 0 <= i <= width
        invariant forall m | 0 <= m < i :: pn[m] == old(b.pn[m])
        invariant forall m | 0 <= m < width :: b.pn[m] == old(b.pn[m])
      {
        pn[i] := b.pn[i];
        i := i + 1;
      }
      assert pn[..] == old(b.pn[..]);
    }

    method Complement() returns (ret: BaseUint)
      requires Valid()
      ensures fresh(ret) && fresh(ret.pn) && ret.Valid() && ret.width == width
      ensures ret.Value() == Modulus() - 1 - Value()
    {
      hide Val, Weight;
      ret := new BaseUint(width);
      var i := 0;
      WeightZero();
      ValZeros(pn[..0]);
      ValZeros(ret.pn[..0]);
      while i < width
        invariant 0 <= i <= width
        invariant pn[..] == old(pn[..]) && Digits(ret.pn[..])
        invariant Val(ret.pn[..i]) + Val(pn[..i]) == Weight(i) - 1
      {
        ghost var before := ret.pn[..i];
        ret.pn[i] := BASE - 1 - pn[i];
        assert ret.pn[..i + 1] == before + [BASE - 1 - pn[i]] && pn[..i + 1] == pn[..i] + [pn[i]];
        ValPush(before, BASE - 1 - pn[i]);
        ValPush(pn[..i], pn[i]);
        Distribute(Weight(i), BASE - 1 - pn[i], pn[i]);
        Distribute(Weight(i), BASE, 1);
        WeightUp(i);
        i := i + 1;
      }
      assert ret.pn[..width] == ret.pn[..] && pn[..width] == pn[..];
    }

    method Increment()
      requires Valid()
      modifies pn
      ensures Valid() && Value() == (old(Value()) + 1) % Modulus()
    {
      hide Val, Weight;
      ghost var a, w := pn[..], Weight(width);
      WeightZero();
      ValBound(a);
      var i := 0;
      while i < width
        invariant 0 <= i <= width && Digits(pn[..])
        invariant Val(pn[..]) == Val(a) + 1 - Weight(i)
      {
        ghost var before := pn[..];
        ghost var x: nat := (pn[i] + 1) % BASE;
        pn[i] := (pn[i] + 1) % BASE;
        assert pn[..] == before[i := x];
        StepUp(before, i, x);
        if pn[i] != 0 {
          ValBound(pn[..]);
          DivUnique(Val(a) + 1, w, 0, Val(a) + 1);
          return;
        }
        i := i + 1;
      }
      DivUnique(Val(a) + 1, w, 1, 0);
    }

    method Decrement()
      requires Valid()
      modifies pn
      ensures Valid() && Value() == (old(Value()) + Modulus() - 1) % Modulus()
    {
      hide Val, Weight;
      ghost var a, w := pn[..], Weight(width);
      WeightZero();
      ValBound(a);
      var i := 0;
      while i < width
        invariant 0 <= i <= width && Digits(pn[..])
        invariant Val(pn[..]) == Val(a) - 1 + Weight(i)
      {
        ghost var before := pn[..];
        ghost var x: nat := (pn[i] + BASE - 1) % BASE;
        pn[i] := (pn[i] + BASE - 1) % BASE;
        assert pn[..] == before[i := x];
        StepDown(before, i, x);
        if pn[i] != BASE - 1 {
          DivUnique(Val(a) + w - 1, w, 1, Val(a) - 1);
          return;
        }
        i := i + 1;
      }
      ValBound(pn[..]);
      DivUnique(Val(a) + w - 1, w, 0, Val(a) + w - 1);
    }

    method Negate() returns (ret: BaseUint)
      requires Valid()
      ensures fresh(ret) && fresh(ret.pn) && ret.Valid() && ret.width == width
      ensures ret.Value() == (Modulus() - Value()) % Modulus()
    {
      ret := Complement();
      ret.Increment();
    }

    method AddAssign(b: BaseUint)
      requires Valid() && b.Valid() && b.width == width
      modifies pn
      ensures Valid() && Value() == (old(Value()) + old(b.Value())) % Modulus()
    {
      hide Val, Weight;
      ghost var x, y := pn[..], b.pn[..];
      WeightZero();
      var carry: nat, i: nat := 0, 0;
      while i < width
        invariant 0 <= i <= width && 0 <= carry <= 1 && Digits(pn[..])
        invariant Val(pn[..i]) + carry * Weight(i) == Val(x[..i]) + Val(y[..i])
        invariant forall m | i <= m < width :: pn[m] == x[m] && b.pn[m] == y[m]
      {
        ghost var done := pn[..i];
        var n: nat := carry + pn[i] + b.pn[i];
        AddStep(done, carry, x, y, n);
        pn[i] := n % BASE;
        carry := n / BASE;
        assert pn[..i + 1] == done + [n % BASE];
        i := i + 1;
      }
      assert pn[..width] == pn[..] && x[..width] == x && y[..width] == y;
      ValBound(pn[..]);
      ModPlus(Val(pn[..]), carry, Val(x) + Val(y), Weight(width));
    }

    method SubAssign(b: BaseUint)
      requires Valid() && b.Valid() && b.width == width
      modifies pn
      ensures Valid() && Value() == (old(Value()) + Modulus() - old(b.Value())) % Modulus()
    {
      hide Val, Weight;
      Bounded();
      b.Bounded();
      ghost var x, y, w := Value(), b.Value(), Modulus();
      var minus := b.Negate();
      AddAssign(minus);
      if y > 0 {
        DivUnique(w - y, w, 0, w - y);
      } else {
        DivUnique(w, w, 1, 0);
        DivUnique(x + w, w, 1, x);
        DivUnique(x, w, 0, x);
      }
    }

    /** The product with one limb. */
    method MulSmall(b32: nat)
      requires Valid() && b32 < BASE
      modifies pn
      ensures Valid() && Value() == old(Value()) * b32 % Modulus()
    {
      hide Val, Weight;
      ghost var x := pn[..];
      WeightZero();
      var carry: nat, i: nat := 0, 0;
      while i < width
        invariant 0 <= i <= width && 0 <= carry < BASE && Digits(pn[..])
        invariant Val(pn[..i]) + carry * Weight(i) == b32 * Val(x[..i])
        invariant forall m | i <= m < width :: pn[m] == x[m]
      {
        ghost var done := pn[..i];
        LimbProduct(b32, pn[i]);
        var n: nat := carry + b32 * pn[i];
        assert n < BASE * BASE;
        ScaleStep(done, carry, x, b32, n);
        DivBounds(n, BASE, BASE);
        pn[i] := n % BASE;
        carry := n / BASE;
        assert pn[..i + 1] == done + [n % BASE];
        i := i + 1;
      }
      assert pn[..width] == pn[..] && x[..width] == x;
      ValBound(pn[..]);
      Commute(Val(x), b32, 1);
      ModPlus(Val(pn[..]), carry, Val(x) * b32, Weight(width));
    }

    /** One row of the product: limb j times b, added from limb j up. */
    method AddRow(a: BaseUint, j: nat, b: BaseUint, ghost q: int) returns (ghost q': int)
      requires Valid() && b.Valid() && b.width == width && a.Valid() && a.width == width
      requires a.pn != pn && a.pn != b.pn && j < width
      requires Val(a.pn[..]) + q * Weight(width) == Val(pn[..j]) * Val(b.pn[..])
      modifies a.pn
      ensures a.Valid()
      ensures Val(a.pn[..]) + q' * Weight(width) == Val(pn[..j + 1]) * Val(b.pn[..])
    {
      hide Val, Weight;
      ghost var before := Val(a.pn[..]);
      ghost var x := pn[j];
      RowStart(before, pn[j], j, b.pn[..]);
      var carry: nat, i: nat := 0, 0;
      while i + j < width
        invariant 0 <= i && i + j <= width && 0 <= carry < BASE && Digits(a.pn[..])
        invariant Val(a.pn[..]) + carry * Weight(i + j) == before + x * Weight(j) * Val(b.pn[..i])
      {
        ghost var done := a.pn[..];
        LimbProduct(pn[j], b.pn[i]);
        var n: nat := carry + a.pn[i + j] + pn[j] * b.pn[i];
        assert n < BASE * BASE;
        RowStep(done, carry, before, x, b.pn[..], i, j, n);
        DivBounds(n, BASE, BASE);
        a.pn[i + j] := n % BASE;
        carry := n / BASE;
        ghost var digit: nat := n % BASE;
        assert a.pn[..] == done[i + j := digit];
        assert i + j + 1 == i + 1 + j;
        i := i + 1;
      }
      q' := RowEnd(Val(a.pn[..]), carry, before, q, pn[..], j, b.pn[..]);
      assert pn[..][..j] == pn[..j] && pn[..][..j + 1] == pn[..j + 1];
    }

    method MulAssign(b: BaseUint)
      requires Valid() && b.Valid() && b.width == width
      modifies pn
      ensures Valid() && Value() == old(Value()) * old(b.Value()) % Modulus()
    {
      hide Val, Weight;
      ghost var x, y := Value(), b.Value();
      var a := new BaseUint(width);
      ghost var q := 0;
      ProductStart(pn[..0], y);
      var j := 0;
      while j < width
        invariant 0 <= j <= width
        invariant a.Valid() && pn[..] == old(pn[..]) && b.pn[..] == old(b.pn[..])
        invariant Val(a.pn[..]) + q * Weight(width) == Val(pn[..j]) * y
      {
        q := AddRow(a, j, b, q);
        j := j + 1;
      }
      assert pn[..width] == pn[..];
      ValBound(a.pn[..]);
      MulNonNegative(x, y);
      ModPlus(Val(a.pn[..]), q, x * y, Weight(width));
      Assign(a);
    }

    method ShiftLeft(shift: nat)
      requires Valid()
      modifies pn
      ensures Valid() && Value() == old(Value()) * Pow2(shift) % Modulus()
    {
      hide Val, Weight, Pow2, Spill, ShiftedTo;
      var a := new BaseUint.Copy(this);
      ghost var x := a.pn[..];
      Clear();
      var k, s := shift / 32, shift % 32;
      if k < width {
        ShiftStart(x, pn[..], k, s);
      }
      var i := 0;
      while i < width
        invariant 0 <= i <= width && Digits(pn[..]) && a.pn[..] == x
        invariant k < width ==> ShiftedTo(x, pn[..], k, s, if i + k < width then i else width - k)
        invariant k >= width ==> forall m | 0 <= m < width :: pn[m] == 0
      {
        ShiftLimb(a, k, s, i);
        i := i + 1;
      }
      if k < width {
        ShiftEnd(x, pn[..], k, s, shift);
      } else {
        ShiftedOut(x, pn[..], shift);
      }
    }

    method Clear()
      requires Valid()
      modifies pn
      ensures Valid() && forall m | 0 <= m < width :: pn[m] == 0
    {
      var i := 0;
      while i < width
        invariant 0 <= i <= width
        invariant forall m | 0 <= m < i :: pn[m] == 0
      {
        pn[i] := 0;
        i := i + 1;
      }
    }

    /** One round of the left shift. */
    method ShiftLimb(a: BaseUint, k: nat, s: nat, i: nat)
      requires Valid() && a.Valid() && a.width == width && a.pn != pn && i < width && s < 32
      requires i + k < width ==> ShiftedTo(a.pn[..], pn[..], k, s, i)
      modifies pn
      ensures Valid()
      ensures i + k < width ==> ShiftedTo(a.pn[..], pn[..], k, s, i + 1)
      ensures i + k >= width ==> pn[..] == old(pn[..])
    {
      hide Val, Weight, Pow2;
      ghost var before, x := pn[..], a.pn[..];
      ShiftParts(a.pn[i], s);
      if i + k + 1 < width && s != 0 {
        pn[i + k + 1] := BitOr(pn[i + k + 1], a.pn[i] / Pow2(32 - s));
      }
      if i + k < width {
        pn[i + k] := BitOr(pn[i + k], a.pn[i] * Pow2(s) % BASE);
      }
      if i + k < width {
        BitOrZero(x[i] / Pow2(32 - s));
        if s == 0 {
          PowZero();
        }
        ShiftStep(x, before, k, s, i, pn[..]);
        SpillFits(x, s, i);
        SpillFits(x, s, i + 1);
      }
    }

    method ShiftRight(shift: nat)
      requires Valid()
      modifies pn
      ensures Valid() && Value() == old(Value()) / Pow2(shift)
    {
      hide Val, Weight, Pow2, LoweredTo;
      var a := new BaseUint.Copy(this);
      ghost var x := a.pn[..];
      Clear();
      var k, s := shift / 32, shift % 32;
      LowerStart(x, pn[..], k, s);
      var i := 0;
      while i < width
        invariant 0 <= i <= width && Digits(pn[..]) && a.pn[..] == x
        invariant k < width ==> LoweredTo(x, pn[..], k, s, if i < k then 0 else i - k)
        invariant k >= width ==> forall m | 0 <= m < width :: pn[m] == 0
      {
        LowerLimb(a, k, s, i);
        i := i + 1;
      }
      if k < width {
        LowerEnd(x, pn[..], k, s, shift);
      } else {
        ShiftedOut(x, pn[..], shift);
      }
    }

    /** One round of the right shift. */
    method LowerLimb(a: BaseUint, k: nat, s: nat, i: nat)
      requires Valid() && a.Valid() && a.width == width && a.pn != pn && i < width && s < 32
      requires i >= k ==> LoweredTo(a.pn[..], pn[..], k, s, i - k)
      modifies pn
      ensures Valid()
      ensures i >= k ==> LoweredTo(a.pn[..], pn[..], k, s, i - k + 1)
      ensures i < k ==> pn[..] == old(pn[..])
    {
      hide Val, Weight, Pow2;
      ghost var before, x := pn[..], a.pn[..];
      if i - k - 1 >= 0 && s != 0 {
        pn[i - k - 1] := BitOr(pn[i - k - 1], a.pn[i] * Pow2(32 - s) % BASE);
      }
      if i - k >= 0 {
        pn[i - k] := BitOr(pn[i - k], a.pn[i] / Pow2(s));
      }
      if i - k >= 0 {
        BitOrZero(x[i] / Pow2(s));
        LowerStep(x, before, k, s, i - k, pn[..]);
        LoweredFits(x, before, k, s, i - k);
      }
    }

    method CompareTo(b: BaseUint) returns (r: int)
      requires Valid() && b.Valid() && b.width == width
      ensures r == -1 || r == 0 || r == 1
      ensures r < 0 <==> Value() < b.Value()
      ensures r > 0 <==> Value() > b.Value()
    {
      hide Val, Weight;
      var i := width - 1;
      while i >= 0
        invariant -1 <= i < width
        invariant forall m | i < m < width :: pn[m] == b.pn[m]
      {
        if pn[i] < b.pn[i] {
          TopLimb(pn[..], b.pn[..], i) by { SameTails(pn, b.pn, i + 1); }
          return -1;
        }
        if pn[i] > b.pn[i] {
          TopLimb(b.pn[..], pn[..], i) by { SameTails(pn, b.pn, i + 1); }
          return 1;
        }
        i := i - 1;
      }
      assert pn[..] == b.pn[..];
      return 0;
    }

    method EqualTo(b: nat) returns (r: bool)
      requires Valid() && b < BASE * BASE
      ensures r <==> Value() == b
    {
      hide Val, Weight;
      var low := LowTwo(pn[..]);
      DivMod(b, BASE);
      var i := width - 1;
      while i >= 2
        invariant 1 <= i < width
        invariant forall m | i < m < width :: pn[m] == 0
      {
        if pn[i] != 0 {
          HighLimb(pn[..], i);
          return false;
        }
        i := i - 1;
      }
      ValZeros(pn[2..]);
      assert Value() == pn[0] + pn[1] * BASE;
      if pn[1] != b / BASE {
        if pn[0] + pn[1] * BASE == b {
          DivUnique(b, BASE, pn[1], pn[0]);
        }
        return false;
      }
      if pn[0] != b % BASE {
        return false;
      }
      return true;
    }

    /** The position of the highest bit set plus one, or zero. */
    method Bits() returns (r: nat)
      requires Valid()
      ensures r <= 32 * width
      ensures r == 0 <==> Value() == 0
      ensures r > 0 ==> Pow2(r - 1) <= Value() < Pow2(r)
    {
      hide Val, Weight, Pow2;
      var pos := width - 1;
      while pos >= 0
        invariant -1 <= pos < width
        invariant forall m | pos < m < width :: pn[m] == 0
      {
        if pn[pos] != 0 {
          Pow2Base();
          var nbits := 31;
          while nbits > 0
            invariant 0 <= nbits < 32
            invariant pn[pos] < Pow2(nbits + 1)
          {
            if pn[pos] / Pow2(nbits) % 2 == 1 {
              DivMod(pn[pos], Pow2(nbits));
              MulMonotone(1, pn[pos] / Pow2(nbits), Pow2(nbits));
              TopBit(pn[..], pos, nbits);
              return 32 * pos + nbits + 1;
            }
            BitClear(pn[pos], nbits);
            nbits := nbits - 1;
          }
          PowZero();
          TopBit(pn[..], pos, 0);
          return 32 * pos + 1;
        }
        pos := pos - 1;
      }
      ValZeros(pn[..]);
      return 0;
    }

    /** The low 64 bits. */
    method GetLow64() returns (r: nat)
      requires Valid()
      ensures r == Value() % (BASE * BASE)
    {
      hide Val, Weight, Pow2;
      Pow2Base();
      BitOrDisjoint(pn[1], pn[0], 32);
      r := BitOr(pn[0], BASE * pn[1]);
      var low := LowTwo(pn[..]);
      DivUnique(Value(), BASE * BASE, low, r);
    }

    /** Long division, one bit of the quotient at a time. Division by zero is an error, and
        leaves zero behind. */
    method DivAssign(b: BaseUint) returns (r: Result<()>)
      requires Valid() && b.Valid() && b.width == width
      modifies pn
      ensures Valid()
      ensures old(b.Value()) == 0 ==> r.Err? && Value() == 0
      ensures old(b.Value()) > 0 ==> r.Ok? && Value() == old(Value()) / old(b.Value())
    {
      hide Val, Weight, Pow2, Dividing, LowBitsClear;
      ghost var num0, d := Value(), b.Value();
      var div := new BaseUint.Copy(b);
      var num := new BaseUint.Copy(this);
      Clear();
      ValZeros(pn[..]);
      var numBits := num.Bits();
      var divBits := div.Bits();
      if divBits == 0 {
        return Err("Division by zero");
      }
      if divBits > numBits {
        SmallerBits(num0, d, numBits, divBits);
        return Ok(());
      }
      var shift := numBits - divBits;
      StartBits(num0, d, numBits, divBits, width);
      div.ShiftLeft(shift);
      AllClear(pn[..], shift);
      while shift >= 0
        invariant -1 <= shift < 32 * width
        invariant Valid() && num.Valid() && div.Valid()
        invariant Dividing(num0, d, Value(), num.Value(), div.Value(), shift)
        invariant LowBitsClear(pn[..], shift)
      {
        DivideBit(num, div, shift, num0, d);
        shift := shift - 1;
      }
      DivDone(num0, d, Value(), num.Value(), div.Value());
      return Ok(());
    }

    /** One round of the long division: subtract if it fits, and halve the divisor. */
    method DivideBit(num: BaseUint, div: BaseUint, shift: nat, ghost num0: nat, ghost d: nat)
      requires Valid() && num.Valid() && div.Valid() && num.width == div.width == width
      requires pn != num.pn && pn != div.pn && num.pn != div.pn && shift < 32 * width && d > 0
      requires Dividing(num0, d, Value(), num.Value(), div.Value(), shift)
      requires LowBitsClear(pn[..], shift)
      modifies pn, num.pn, div.pn
      ensures Valid() && num.Valid() && div.Valid()
      ensures Dividing(num0, d, Value(), num.Value(), div.Value(), shift - 1)
      ensures LowBitsClear(pn[..], shift - 1)
    {
      hide Val, Weight, Pow2, Dividing, LowBitsClear;
      DivRound(num0, d, Value(), num.Value(), div.Value(), shift);
      var c := num.CompareTo(div);
      if c >= 0 {
        num.SubExact(div);
        SetBit(shift);
      } else {
        NextBitClear(pn[..], shift, pn[..]);
      }
      div.ShiftRight(1);
      PowOne();
    }

    /** Subtraction of a number that is not larger. */
    method SubExact(b: BaseUint)
      requires Valid() && b.Valid() && b.width == width && b.Value() <= Value()
      modifies pn
      ensures Valid() && Value() == old(Value()) - old(b.Value())
    {
      hide Val, Weight;
      Bounded();
      ghost var x, y, w := Value(), b.Value(), Modulus();
      SubAssign(b);
      DivUnique(x + w - y, w, 1, x - y);
    }

    /** Or-ing in bit `shift` of the quotient. */
    method SetBit(shift: nat)
      requires Valid() && shift < 32 * width && LowBitsClear(pn[..], shift)
      modifies pn
      ensures Valid() && Value() == old(Value()) + Pow2(shift)
      ensures LowBitsClear(pn[..], shift - 1)
    {
      hide Val, Weight, Pow2;
      ghost var before := pn[..];
      var k, s := shift / 32, shift % 32;
      BitFits(pn[k], s);
      BitOrSet(pn[k], s);
      pn[k] := BitOr(pn[k], Pow2(s));
      assert pn[..] == before[k := before[k] + Pow2(s)];
      ValUpdate(before, k, before[k] + Pow2(s));
      Distribute(Weight(k), before[k], Pow2(s));
      WeightPow2(k);
      Pow2Add(32 * k, s);
      Commute(Weight(k), Pow2(s), 1);
      NextBitClear(before, shift, pn[..]);
    }
  }

  /** A limb counted up: by one at its weight, or over to the next limb. */
  lemma StepUp(s: seq<nat>, i: nat, x: nat)
    requires i < |s| && Digits(s) && x == (s[i] + 1) % BASE
    ensures x != 0 ==> Val(s[i := x]) == Val(s) + Weight(i)
    ensures x == 0 ==> Val(s[i := x]) == Val(s) + Weight(i) - Weight(i + 1)
    ensures Digits(s[i := x])
  {
    hide Val, Weight;
    ValUpdate(s, i, x);
    WeightUp(i);
    assert x == if s[i] == BASE - 1 then 0 else s[i] + 1;
    Distribute(Weight(i), s[i], 1);
    Distribute(Weight(i), BASE, 1);
  }

  /** A limb counted down. */
  lemma StepDown(s: seq<nat>, i: nat, x: nat)
    requires i < |s| && Digits(s) && x == (s[i] + BASE - 1) % BASE
    ensures x != BASE - 1 ==> Val(s[i := x]) == Val(s) - Weight(i)
    ensures x == BASE - 1 ==> Val(s[i := x]) == Val(s) - Weight(i) + Weight(i + 1)
    ensures Digits(s[i := x])
  {
    hide Val, Weight;
    ValUpdate(s, i, x);
    WeightUp(i);
    assert x == if s[i] == 0 then BASE - 1 else s[i] - 1;
    Distribute(Weight(i), s[i], 1);
    Distribute(Weight(i), BASE, 1);
  }

  lemma WeightZero()
    ensures Weight(0) == 1 && Val([]) == 0
  {
  }

  lemma PowOne()
    ensures Pow2(1) == 2
  {
  }

  lemma RowStart(before: int, x: nat, j: nat, b: seq<nat>)
    ensures before + 0 * Weight(j) == before + x * Weight(j) * Val(b[..0])
  {
  }

  lemma ProductStart(a: seq<nat>, y: int)
    requires a == []
    ensures Val(a) * y == 0
  {
  }

  lemma SpillFits(a: seq<nat>, s: nat, j: nat)
    requires Digits(a) && j <= |a| && s < 32
    ensures Spill(a, s, j) < BASE
    ensures j < |a| ==> Spill(a, s, j) + a[j] * Pow2(s) % BASE < BASE
  {
    hide Pow2;
    Pow2Monotone(s, 32);
    Pow2Base();
    if j > 0 {
      ShiftParts(a[j - 1], s);
    }
    if j < |a| {
      ShiftParts(a[j], s);
      Pow2Split(s);
      var p, r := Pow2(s), Pow2(32 - s);
      MulMonotone(a[j] % r + 1, r, p);
      Distribute(p, a[j] % r, 1);
    }
  }

  lemma LowerStart(a: seq<nat>, p: seq<nat>, k: nat, s: nat)
    requires |p| == |a| && forall i | 0 <= i < |p| :: p[i] == 0
    ensures k < |a| ==> LoweredTo(a, p, k, s, 0)
  {
  }

  /** Or-ing the low bits of a limb into the limb below keeps that a limb. */
  lemma LoweredFits(a: seq<nat>, p: seq<nat>, k: nat, s: nat, j: nat)
    requires Digits(a) && s < 32 && j + k < |a| && LoweredTo(a, p, k, s, j)
    ensures a[k + j] / Pow2(s) < BASE
    ensures j > 0 ==> p[j - 1] + a[k + j] % Pow2(s) * Pow2(32 - s) < BASE
  {
    hide Pow2, Val, Weight;
    var r, g := Pow2(32 - s), Pow2(s);
    Pow2Split(s);
    var x := a[k + j];
    DivMod(x, g);
    DivBounds(x, g, BASE) by { MulMonotone(1, g, BASE); }
    if j > 0 {
      DivBounds(a[k + j - 1], g, r) by { Commute(g, r, 1); }
      MulMonotone(x % g + 1, g, r);
      Distribute(r, x % g, 1);
    }
  }

  lemma SameTails(a: array<nat>, b: array<nat>, i: nat)
    requires i <= a.Length == b.Length && forall m | i <= m < a.Length :: a[m] == b[m]
    ensures a[..][i..] == b[..][i..]
  {
  }

  /** A number by its two low limbs. */
  lemma LowTwo(a: seq<nat>) returns (high: nat)
    requires |a| >= 2 && Digits(a)
    ensures high == Val(a[2..])
    ensures Val(a) == a[0] + a[1] * BASE + high * (BASE * BASE)
    ensures a[0] + a[1] * BASE < BASE * BASE
  {
    hide Val, Weight;
    high := Val(a[2..]);
    assert a == [a[0]] + ([a[1]] + a[2..]);
    ValAppend([a[0]], [a[1]] + a[2..]);
    ValAppend([a[1]], a[2..]);
    ValOne(a[0]);
    ValOne(a[1]);
    WeightUp(0);
    WeightZero();
  }

  lemma HighLimb(a: seq<nat>, i: nat)
    requires 2 <= i < |a| && a[i] != 0
    ensures Val(a) >= BASE * BASE
  {
    hide Val;
    var low := a[..i] + [a[i]];
    ValSplit(a, i + 1);
    assert a[..i + 1] == low;
    ValPush(a[..i], a[i]);
    MulNonNegative(Weight(i + 1), Val(a[i + 1..]));
    MulMonotone(1, a[i], Weight(i));
    WeightAdd(2, i - 2);
    MulMonotone(1, Weight(i - 2), Weight(2));
    assert 2 + (i - 2) == i;
  }

  lemma BitClear(x: nat, n: nat)
    requires x < Pow2(n + 1) && x / Pow2(n) % 2 != 1
    ensures x < Pow2(n)
  {
    hide Pow2;
    PowUp(n);
    DivMod(x, Pow2(n));
    DivBounds(x, Pow2(n), 2);
  }

  lemma SmallerBits(num: nat, d: nat, n: nat, m: nat)
    requires n < m && Pow2(m - 1) <= d
    requires (n == 0 <==> num == 0) && (n > 0 ==> num < Pow2(n))
    ensures num / d == 0
  {
    if n > 0 {
      Pow2Monotone(n, m - 1);
    }
    DivUnique(num, d, 0, num);
  }

  lemma StartBits(num: nat, d: nat, n: nat, m: nat, width: nat)
    requires 0 < m <= n <= 32 * width && num < Pow2(n) && Pow2(m - 1) <= d < Pow2(m)
    ensures Dividing(num, d, 0, num, d * Pow2(n - m) % Weight(width), n - m)
    ensures n - m < 32 * width
  {
    hide Pow2, Weight;
    PowUp(m - 1);
    DivStart(num, d, n, m);
    Pow2Monotone(n, 32 * width);
    WeightPow2(width);
    MulNonNegative(d, Pow2(n - m));
    DivUnique(d * Pow2(n - m), Weight(width), 0, d * Pow2(n - m));
  }
}
