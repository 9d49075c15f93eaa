/** Numbers as sequences of 32-bit digits, least significant first, and the facts about
    powers of two that digit-wise arithmetic rests on. */
module Limbs {

  const BASE := 0x1_0000_0000

  function Pow2(n: nat): (r: nat)
    ensures r > 0
  {
    if n == 0 then 1 else 2 * Pow2(n - 1)
  }

  /** The weight of digit n. */
  ghost function Weight(n: nat): (r: nat)
    ensures r > 0
  {
    if n == 0 then 1 else BASE * Weight(n - 1)
  }

  ghost function Val(s: seq<nat>): nat {
    if s == [] then 0 else s[0] + BASE * Val(s[1..])
  }

  ghost predicate Digits(s: seq<nat>) {
    forall i | 0 <= i < |s| :: s[i] < BASE
  }

  // ----- products -----

  lemma Distribute(a: int, b: int, c: int)
    ensures a * (b + c) == a * b + a * c
    ensures (b + c) * a == b * a + c * a
    ensures a * (b - c) == a * b - a * c
  {
  }

  lemma Commute(a: int, b: int, c: int)
    ensures a * b == b * a
    ensures a * (b * c) == (a * b) * c
    ensures a * (b * c) == b * (a * c)
  {
  }

  lemma MulMonotone(a: int, b: int, c: int)
    requires a <= b && c >= 0
    ensures a * c <= b * c && c * a <= c * b
  {
  }

  lemma MulStrict(a: int, b: int, c: int)
    requires a < b && c > 0
    ensures a * c < b * c && c * a < c * b
  {
  }

  lemma MulNonNegative(a: int, b: int)
    requires a >= 0 && b >= 0
    ensures a * b >= 0
  {
  }

  // ----- division -----

  lemma DivMod(x: nat, d: nat)
    requires d > 0
    ensures x == x / d * d + x % d && 0 <= x % d < d && x / d >= 0
    ensures x == d * (x / d) + x % d
  {
    Commute(x / d, d, 1);
  }

  /** A quotient and remainder in range are the quotient and remainder. */
  lemma DivUnique(x: int, d: nat, q: int, r: int)
    requires d > 0 && x == q * d + r && 0 <= r < d
    ensures x / d == q && x % d == r
  {
    var e := x / d - q;
    assert x == x / d * d + x % d;
    Distribute(d, x / d, q);
    assert e * d == r - x % d;
    if e >= 1 {
      MulMonotone(1, e, d);
    }
    if e <= -1 {
      MulMonotone(e, -1, d);
    }
  }

  lemma DivBounds(x: nat, d: nat, n: nat)
    requires d > 0 && x < n * d
    ensures x / d < n
  {
    DivMod(x, d);
    if x / d >= n {
      MulMonotone(n, x / d, d);
    }
  }

  /** A multiple of d added does not change the remainder. */
  lemma ModPlus(x: nat, q: int, y: nat, d: nat)
    requires d > 0 && x + q * d == y && x < d
    ensures y % d == x
  {
    DivUnique(y, d, q, x);
  }

  // ----- powers -----

  lemma {:induction false} Pow2Add(m: nat, n: nat)
    ensures Pow2(m + n) == Pow2(m) * Pow2(n)
  {
    if m > 0 {
      Pow2Add(m - 1, n);
      Commute(2, Pow2(m - 1), Pow2(n));
      assert m + n - 1 == m - 1 + n;
    }
  }

  lemma {:induction false} Pow2Monotone(m: nat, n: nat)
    requires m <= n
    ensures Pow2(m) <= Pow2(n)
    decreases n - m
  {
    if m < n {
      Pow2Monotone(m + 1, n);
    }
  }

  lemma {:induction false} WeightAdd(m: nat, n: nat)
    ensures Weight(m + n) == Weight(m) * Weight(n)
  {
    if m > 0 {
      WeightAdd(m - 1, n);
      Commute(BASE, Weight(m - 1), Weight(n));
      assert m + n - 1 == m - 1 + n;
    }
  }

  lemma Pow2Base()
    ensures Pow2(32) == BASE
  {
    assert Pow2(8) == 256;
    Pow2Add(8, 8);
    Pow2Add(16, 16);
  }

  lemma {:induction false} WeightPow2(n: nat)
    ensures Weight(n) == Pow2(32 * n)
  {
    if n > 0 {
      WeightPow2(n - 1);
      Pow2Base();
      Pow2Add(32, 32 * (n - 1));
      assert 32 * n == 32 + 32 * (n - 1);
    }
  }

  // ----- digit sequences -----

  lemma {:induction false} ValAppend(s: seq<nat>, t: seq<nat>)
    ensures Val(s + t) == Val(s) + Weight(|s|) * Val(t)
  {
    if s == [] {
      assert s + t == t;
    } else {
      assert (s + t)[1..] == s[1..] + t;
      ValAppend(s[1..], t);
      Distribute(BASE, Val(s[1..]), Weight(|s| - 1) * Val(t));
      Commute(BASE, Weight(|s| - 1), Val(t));
    }
  }

  lemma ValOne(x: nat)
    ensures Val([x]) == x
  {
    assert [x][1..] == [];
  }

  lemma ValPush(s: seq<nat>, x: nat)
    ensures Val(s + [x]) == Val(s) + x * Weight(|s|)
  {
    ValAppend(s, [x]);
    ValOne(x);
    Commute(Weight(|s|), x, 1);
  }

  lemma {:induction false} ValBound(s: seq<nat>)
    requires Digits(s)
    ensures Val(s) < Weight(|s|)
  {
    if s != [] {
      ValBound(s[1..]);
      assert s[0] + BASE * Val(s[1..]) < BASE + BASE * Val(s[1..]);
      MulMonotone(Val(s[1..]) + 1, Weight(|s| - 1), BASE);
    }
  }

  lemma {:induction false} ValZeros(s: seq<nat>)
    requires forall i | 0 <= i < |s| :: s[i] == 0
    ensures Val(s) == 0
  {
    if s != [] {
      ValZeros(s[1..]);
    }
  }

  /** Changing digit i changes the value by the difference at its weight. */
  lemma ValUpdate(s: seq<nat>, i: nat, x: nat)
    requires i < |s|
    ensures Val(s[i := x]) == Val(s) + x * Weight(i) - s[i] * Weight(i)
  {
    var rest := s[i + 1..];
    assert s == s[..i] + ([s[i]] + rest);
    assert s[i := x] == s[..i] + ([x] + rest);
    ValAppend(s[..i], [s[i]] + rest);
    ValAppend(s[..i], [x] + rest);
    ValAppend([s[i]], rest);
    ValAppend([x], rest);
    ValOne(s[i]);
    ValOne(x);
    Distribute(Weight(i), s[i], Weight(1) * Val(rest));
    Distribute(Weight(i), x, Weight(1) * Val(rest));
    Commute(Weight(i), x, 1);
    Commute(Weight(i), s[i], 1);
  }

  lemma ValSplit(s: seq<nat>, k: nat)
    requires k <= |s|
    ensures Val(s) == Val(s[..k]) + Weight(k) * Val(s[k..])
  {
    assert s == s[..k] + s[k..];
    ValAppend(s[..k], s[k..]);
  }

  // ----- carries -----

  /** One digit of a sum: what was there, plus what comes in, is the digit kept and the
      carry passed on. */
  lemma CarryStep(done: int, carry: int, w: int, total: int, add: int, n: nat)
    requires done + carry * w == total && n == carry + add
    ensures done + (n % BASE) * w + (n / BASE) * (BASE * w) == total + add * w
  {
    DivMod(n, BASE);
    Distribute(w, n / BASE * BASE, n % BASE);
    Distribute(w, carry, add);
    Commute(n / BASE, BASE, w);
  }

  lemma LimbProduct(x: nat, y: nat)
    requires x < BASE && y < BASE
    ensures 0 <= x * y <= (BASE - 1) * (BASE - 1)
  {
    MulNonNegative(x, y);
    MulMonotone(x, BASE - 1, y);
    MulMonotone(y, BASE - 1, BASE - 1);
  }

  // ----- bits -----

  /** The bitwise or of two numbers. */
  function BitOr(a: nat, b: nat): nat {
    if a == 0 && b == 0 then 0
    else (if a % 2 == 1 || b % 2 == 1 then 1 else 0) + 2 * BitOr(a / 2, b / 2)
  }

  lemma {:induction false} BitOrZero(a: nat)
    ensures BitOr(a, 0) == a && BitOr(0, a) == a
  {
    if a != 0 {
      BitOrZero(a / 2);
    }
  }

  /** Or-ing a number below 2^n to a multiple of 2^n adds it. */
  lemma {:induction false} BitOrDisjoint(a: nat, b: nat, n: nat)
    requires b < Pow2(n)
    ensures BitOr(Pow2(n) * a, b) == Pow2(n) * a + b
    ensures BitOr(b, Pow2(n) * a) == Pow2(n) * a + b
    decreases n
  {
    if n == 0 {
      BitOrZero(a);
    } else {
      var x := Pow2(n) * a;
      Commute(2, Pow2(n - 1), a);
      assert x == 2 * (Pow2(n - 1) * a);
      assert x / 2 == Pow2(n - 1) * a && x % 2 == 0;
      BitOrDisjoint(a, b / 2, n - 1);
      if x == 0 && b == 0 {
      } else {
        assert b == 2 * (b / 2) + b % 2;
      }
    }
  }
}
