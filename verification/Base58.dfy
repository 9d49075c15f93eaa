/** Base58 text for byte strings (src/base58.cpp): conversion between base 256 and base 58 in
    a fixed buffer of digits, most significant first. */
module Base58 {

  import opened Collections
  import L = Limbs

  // ----- powers and digit strings -----

  ghost function Pow(b: nat, e: nat): (r: nat)
    ensures b > 0 ==> r > 0
  {
    if e == 0 then 1
    else
      L.MulNonNegative(b, Pow(b, e - 1));
      b * Pow(b, e - 1)
  }

  ghost predicate DigitString(s: seq<nat>, base: nat) {
    forall i | 0 <= i < |s| :: s[i] < base
  }

  /** The number a digit string stands for, most significant digit first. */
  ghost function Value(s: seq<nat>, base: nat): nat {
    if s == [] then 0
    else
      L.MulNonNegative(s[0], Pow(base, |s| - 1));
      s[0] * Pow(base, |s| - 1) + Value(s[1..], base)
  }

  /** The digits of v without leading zeroes. */
  ghost function Digits(v: nat, base: nat): seq<nat>
    requires base > 1
    decreases v
  {
    if v == 0 then []
    else
      L.DivMod(v, base);
      Shrinks(v, base);
      Digits(v / base, base) + [v % base]
  }

  lemma Shrinks(v: nat, base: nat)
    requires base > 1 && v > 0
    ensures 0 <= v / base < v
  {
    L.DivMod(v, base);
    if v / base >= v {
      L.MulMonotone(v, v / base, base);
      L.MulMonotone(2, base, v);
    }
  }

  lemma {:induction false} PowAdd(b: nat, m: nat, n: nat)
    ensures Pow(b, m + n) == Pow(b, m) * Pow(b, n)
  {
    if m > 0 {
      PowAdd(b, m - 1, n);
      L.Commute(b, Pow(b, m - 1), Pow(b, n));
      assert m + n - 1 == m - 1 + n;
    }
  }

  lemma {:induction false} PowOfPow(b: nat, m: nat, n: nat)
    ensures Pow(Pow(b, m), n) == Pow(b, m * n)
  {
    if n > 0 {
      PowOfPow(b, m, n - 1);
      PowAdd(b, m, m * (n - 1));
      assert m * n == m + m * (n - 1);
      L.MulNonNegative(m, n - 1);
    }
  }

  lemma {:induction false} PowGrows(a: nat, b: nat, n: nat)
    requires a <= b
    ensures Pow(a, n) <= Pow(b, n)
    ensures a < b && n > 0 ==> Pow(a, n) < Pow(b, n)
  {
    if n > 0 {
      PowGrows(a, b, n - 1);
      L.MulMonotone(a, b, Pow(a, n - 1));
      L.MulMonotone(Pow(a, n - 1), Pow(b, n - 1), b);
      if a < b {
        L.MulStrict(a, b, Pow(b, n - 1));
        L.MulMonotone(Pow(a, n - 1), Pow(b, n - 1), a);
      }
    }
  }

  lemma {:induction false} PowMonotone(b: nat, m: nat, n: nat)
    requires m <= n && b > 0
    ensures Pow(b, m) <= Pow(b, n)
    decreases n - m
  {
    if m < n {
      PowMonotone(b, m + 1, n);
      L.MulMonotone(1, b, Pow(b, m));
    }
  }

  // ----- the two size estimates -----

  lemma PowersOf58()
    ensures Pow(2, 134) <= Pow(58, 23) && Pow(58, 50) <= Pow(2, 293)
  {
    hide Pow;
    SmallPowers();
    PowAdd(58, 5, 5);
    PowAdd(58, 10, 10);
    PowAdd(58, 20, 3);
    PowAdd(58, 20, 20);
    PowAdd(58, 40, 10);
    PowAdd(2, 8, 8);
    PowAdd(2, 16, 16);
    PowAdd(2, 32, 32);
    PowAdd(2, 64, 64);
    PowAdd(2, 128, 6);
    PowAdd(2, 128, 128);
    PowAdd(2, 256, 32);
    PowAdd(2, 288, 5);
  }

  lemma SmallPowers()
    ensures Pow(58, 3) == 195112 && Pow(58, 5) == 656356768
    ensures Pow(2, 5) == 32 && Pow(2, 6) == 64 && Pow(2, 8) == 256
  {
    PowTwice(2, 1);
    PowTwice(2, 2);
    PowTwice(2, 4);
    PowTwice(58, 1);
    PowTwice(58, 2);
  }

  lemma PowTwice(b: nat, n: nat)
    ensures Pow(b, 1) == b && Pow(b, n + 1) == b * Pow(b, n)
    ensures Pow(b, 2 * n) == Pow(b, n) * Pow(b, n)
  {
    PowAdd(b, n, n);
    assert Pow(b, 0) == 1;
  }

  /** 138/100 digits to the byte are enough: log(256) / log(58), rounded up. */
  lemma EncodeRoom(n: nat)
    ensures Pow(256, n) <= Pow(58, n * 138 / 100 + 1)
  {
    hide Pow;
    var k := n * 138 / 100 + 1;
    PowersOf58();
    SmallPowers();
    PowOfPow(2, 8, n);
    if Pow(58, k) < Pow(256, n) {
      PowGrows(Pow(58, k), Pow(256, n), 23);
      PowOfPow(58, k, 23);
      PowOfPow(58, 23, k);
      assert k * 23 == 23 * k;
      PowGrows(Pow(2, 134), Pow(58, 23), k);
      PowOfPow(2, 134, k);
      PowOfPow(2, 8 * n, 23);
      PowMonotone(2, 8 * n * 23, 134 * k);
    }
  }

  /** 733/1000 bytes to the digit are enough: log(58) / log(256), rounded up. */
  lemma DecodeRoom(n: nat)
    ensures Pow(58, n) <= Pow(256, n * 733 / 1000 + 1)
  {
    hide Pow;
    var k := n * 733 / 1000 + 1;
    PowersOf58();
    SmallPowers();
    PowOfPow(2, 8, k);
    if Pow(256, k) < Pow(58, n) {
      PowGrows(Pow(256, k), Pow(58, n), 50);
      PowOfPow(58, n, 50);
      PowOfPow(58, 50, n);
      assert n * 50 == 50 * n;
      PowGrows(Pow(58, 50), Pow(2, 293), n);
      PowOfPow(2, 293, n);
      PowOfPow(2, 8 * k, 50);
      PowMonotone(2, 293 * n, 8 * k * 50);
    }
  }

  // ----- digit strings and numbers -----

  lemma {:induction false} ValueBound(s: seq<nat>, base: nat)
    requires DigitString(s, base)
    ensures Value(s, base) < Pow(base, |s|)
  {
    if s != [] {
      ValueBound(s[1..], base);
      var p := Pow(base, |s| - 1);
      L.MulMonotone(s[0] + 1, base, p);
      L.Distribute(p, s[0], 1);
    }
  }

  lemma {:induction false} ValueZeroes(s: seq<nat>, base: nat, k: nat)
    requires k <= |s| && forall i | 0 <= i < k :: s[i] == 0
    ensures Value(s, base) == Value(s[k..], base)
  {
    if k > 0 {
      ValueZeroes(s[1..], base, k - 1);
      assert s[1..][k - 1..] == s[k..];
    }
  }

  /** Appending a digit. */
  lemma {:induction false} ValuePush(s: seq<nat>, d: nat, base: nat)
    ensures Value(s + [d], base) == Value(s, base) * base + d
  {
    if s == [] {
      assert [d][1..] == [];
      assert Pow(base, 0) == 1;
    } else {
      assert (s + [d])[1..] == s[1..] + [d];
      ValuePush(s[1..], d, base);
      var p := Pow(base, |s| - 1);
      assert Pow(base, |s|) == base * p;
      assert Value(s + [d], base) == s[0] * (base * p) + Value(s[1..] + [d], base);
      L.Commute(s[0], base, p);
      L.Commute(s[0] * p, base, 1);
      L.Distribute(base, s[0] * p, Value(s[1..], base));
    }
  }

  lemma {:induction false} DigitsAreDigits(v: nat, base: nat)
    requires base > 1
    ensures DigitString(Digits(v, base), base) && Value(Digits(v, base), base) == v
    ensures v > 0 ==> Digits(v, base) != [] && Digits(v, base)[0] != 0
    decreases v
  {
    if v > 0 {
      L.DivMod(v, base);
      Shrinks(v, base);
      DigitsAreDigits(v / base, base);
      ValuePush(Digits(v / base, base), v % base, base);
    }
  }

  /** Every digit string without leading zeroes is the digits of its value. */
  lemma {:induction false} DigitsUnique(s: seq<nat>, base: nat)
    requires base > 1 && DigitString(s, base)
    requires s != [] ==> s[0] != 0
    ensures s == Digits(Value(s, base), base)
  {
    if s != [] {
      var n := |s| - 1;
      var t, d := s[..n], s[n];
      assert s == t + [d];
      ValuePush(t, d, base);
      DigitsUnique(t, base);
      L.DivUnique(Value(s, base), base, Value(t, base), d);
      if t == [] {
        assert Value(t, base) == 0;
      } else {
        Positive(t, base);
        L.MulMonotone(1, Value(t, base), base);
      }
    }
  }

  lemma Positive(s: seq<nat>, base: nat)
    requires s != [] && s[0] != 0 && base > 0
    ensures Value(s, base) > 0
  {
    L.MulMonotone(1, s[0], Pow(base, |s| - 1));
  }

  // ----- the buffer -----

  /** The buffer holds a number of `length` digits, right-aligned. */
  ghost predicate Holds(s: seq<nat>, base: nat, length: nat) {
    && length <= |s| && DigitString(s, base)
    && (forall i | 0 <= i < |s| - length :: s[i] == 0)
    && (length > 0 ==> s[|s| - length] != 0)
  }

  lemma HoldsDigits(s: seq<nat>, base: nat, length: nat)
    requires base > 1 && Holds(s, base, length)
    ensures s[|s| - length..] == Digits(Value(s, base), base)
  {
    ValueZeroes(s, base, |s| - length);
    DigitsUnique(s[|s| - length..], base);
  }

  /** One digit of the multiplication. */
  lemma DigitStep(done: int, carry: nat, p: nat, total: int, digit: nat, factor: nat, base: nat, rest: int)
    requires base > 0 && done + carry * p == rest * factor + total
    ensures var n := carry + factor * digit;
            n % base * p + done + n / base * (base * p) == (digit * p + rest) * factor + total
  {
    var n := carry + factor * digit;
    L.MulNonNegative(factor, digit);
    L.DivMod(n, base);
    L.Distribute(p, n / base * base, n % base);
    L.Commute(n / base, base, p);
    L.Distribute(p, carry, factor * digit);
    L.Distribute(factor, digit * p, rest);
    L.Commute(factor, digit, p);
    L.Commute(digit * p, factor, 1);
  }

  /** The state of the multiplication after i digits. */
  ghost predicate Multiplied(a: seq<nat>, was: seq<nat>, base: nat, factor: nat, ch: nat, length: nat, i: nat,
                             carry: nat)
  {
    && |a| == |was| && i <= |a|
    && DigitString(a, base)
    && (forall k | 0 <= k < |a| - i :: a[k] == was[k])
    && Value(a[|a| - i..], base) + carry * Pow(base, i) == Value(was[|a| - i..], base) * factor + ch
    && (i >= length && i > 0 ==> carry != 0 || a[|a| - i] != 0)
  }

  lemma MultipliedStep(a: seq<nat>, was: seq<nat>, base: nat, factor: nat, ch: nat, length: nat, i: nat, carry: nat)
    requires base > 1 && factor > 0
    requires Holds(was, base, length) && Multiplied(a, was, base, factor, ch, length, i, carry)
    requires i < |a| && (carry != 0 || i < length)
    ensures var n := carry + factor * a[|a| - 1 - i];
            n >= 0 && n % base >= 0 && n / base >= 0
            && Multiplied(a[|a| - 1 - i := n % base], was, base, factor, ch, length, i + 1, n / base)
  {
    var k := |a| - 1 - i;
    var d := a[k];
    L.MulNonNegative(factor, d);
    var n: nat := carry + factor * d;
    L.DivMod(n, base);
    var next: nat := n % base;
    var b := a[k := next];
    assert b[k..] == [next] + a[k + 1..];
    assert was[k..] == [d] + was[k + 1..];
    assert b[k..][1..] == a[k + 1..] && was[k..][1..] == was[k + 1..];
    var p := Pow(base, i);
    DigitStep(Value(a[k + 1..], base), carry, p, ch, d, factor, base, Value(was[k + 1..], base));
    assert Pow(base, i + 1) == base * p;
    if i + 1 >= length && n / base == 0 {
      if i + 1 == length {
        L.MulMonotone(1, d, factor);
      }
      L.DivUnique(n, base, 0, n % base);
    }
  }

  lemma MultipliedAll(a: seq<nat>, was: seq<nat>, base: nat, factor: nat, ch: nat, length: nat, i: nat, carry: nat)
    requires base > 1 && factor > 0
    requires Holds(was, base, length) && Multiplied(a, was, base, factor, ch, length, i, carry)
    requires i == |a| || (carry == 0 && i >= length)
    requires Value(was, base) * factor + ch < Pow(base, |was|)
    ensures carry == 0
    ensures Holds(a, base, i) && Value(a, base) == Value(was, base) * factor + ch
  {
    ValueZeroes(was, base, if i < length then 0 else |a| - i);
    if i == |a| {
      assert a[0..] == a && was[0..] == was;
      if carry > 0 {
        L.MulMonotone(1, carry, Pow(base, i));
      }
    } else {
      ValueZeroes(a, base, |a| - i);
    }
  }

  /** Multiplies the number in the buffer by a factor and adds ch, as long as it fits. */
  method MulAdd(a: array<nat>, base: nat, factor: nat, ch: nat, length: nat) returns (i: nat)
    requires base > 1 && factor > 0 && Holds(a[..], base, length)
    requires Value(a[..], base) * factor + ch < Pow(base, a.Length)
    modifies a
    ensures Holds(a[..], base, i)
    ensures Value(a[..], base) == old(Value(a[..], base)) * factor + ch
    ensures length <= i
  {
    hide Holds, Multiplied, Pow, Value;
    ghost var was := a[..];
    i := 0;
    var carry := ch;
    MultipliedStart(was, base, factor, ch, length);
    while (carry != 0 || i < length) && i != a.Length
      invariant 0 <= i <= a.Length && carry >= 0
      invariant Multiplied(a[..], was, base, factor, ch, length, i, carry)
      decreases a.Length - i
    {
      ghost var before := a[..];
      var k := a.Length - 1 - i;
      MultipliedStep(before, was, base, factor, ch, length, i, carry);
      carry := carry + factor * a[k];
      a[k] := carry % base;
      carry := carry / base;
      ghost var next: nat := a[k];
      assert a[..] == before[k := next];
      i := i + 1;
    }
    HoldsFits(was, base, length);
    MultipliedAll(a[..], was, base, factor, ch, length, i, carry);
    assert carry == 0;
  }

  lemma HoldsFits(s: seq<nat>, base: nat, length: nat)
    requires Holds(s, base, length)
    ensures length <= |s| && DigitString(s, base)
    ensures forall i | 0 <= i < |s| - length :: s[i] == 0
  {
  }

  lemma MultipliedStart(s: seq<nat>, base: nat, factor: nat, ch: nat, length: nat)
    requires Holds(s, base, length)
    ensures Multiplied(s, s, base, factor, ch, length, 0, ch)
  {
    assert Pow(base, 0) == 1 && s[|s|..] == [];
  }

  // ----- the alphabet -----

  /** All digits and letters except 0, I, O and l. */
  const ALPHABET := "123456789" + "ABCDEFGH" + "JKLMN" + "PQRSTUVWXYZ" + "abcdefghijk" + "mnopqrstuvwxyz"

  /** The digit a character stands for, or -1: the table of the source, run by run. */
  function MapBase58(c: char): int {
    if '1' <= c <= '9' then c as int - '1' as int
    else if 'A' <= c <= 'H' then c as int - 'A' as int + 9
    else if 'J' <= c <= 'N' then c as int - 'J' as int + 17
    else if 'P' <= c <= 'Z' then c as int - 'P' as int + 22
    else if 'a' <= c <= 'k' then c as int - 'a' as int + 33
    else if 'm' <= c <= 'z' then c as int - 'm' as int + 44
    else -1
  }

  /** A blank, or one of the control characters from tab to carriage return. */
  predicate IsSpace(c: char): (r: bool)
    ensures r <==> c as int == 32 || 9 <= c as int <= 13
  {
    c == ' ' || c as int == 12 || c == '\n' || c == '\r' || c == '\t' || c as int == 11
  }

  lemma LowDigits(d: nat)
    requires d < 22
    ensures |ALPHABET| == 58
    ensures ALPHABET[d] as int == if d < 9 then 49 + d else if d < 17 then 65 + d - 9 else 74 + d - 17
  {
  }

  lemma MiddleDigits(d: nat)
    requires 22 <= d < 44
    ensures |ALPHABET| == 58
    ensures ALPHABET[d] as int == if d < 33 then 80 + d - 22 else 97 + d - 33
  {
  }

  lemma HighDigits(d: nat)
    requires 44 <= d < 58
    ensures |ALPHABET| == 58
    ensures ALPHABET[d] as int == 109 + d - 44
  {
  }

  /** The table inverts the alphabet. */
  lemma AlphabetTable(d: nat)
    requires d < 58
    ensures |ALPHABET| == 58 && MapBase58(ALPHABET[d]) == d
    ensures !IsSpace(ALPHABET[d]) && (ALPHABET[d] == '1' <==> d == 0)
  {
    hide ALPHABET;
    if d < 22 {
      LowDigits(d);
    } else if d < 44 {
      MiddleDigits(d);
    } else {
      HighDigits(d);
    }
  }

  lemma MapTable(c: char)
    requires MapBase58(c) >= 0
    ensures MapBase58(c) < 58 == |ALPHABET| && ALPHABET[MapBase58(c)] == c
    ensures !IsSpace(c) && (MapBase58(c) == 0 <==> c == '1')
  {
    hide ALPHABET;
    var d := MapBase58(c);
    if d < 22 {
      LowDigits(d);
    } else if d < 44 {
      MiddleDigits(d);
    } else {
      HighDigits(d);
    }
  }

  // ----- what the two directions compute -----

  ghost predicate ByteString(b: seq<nat>) { DigitString(b, 256) }

  function LeadingZeroes(b: seq<nat>): (z: nat)
    ensures z <= |b|
  {
    if b != [] && b[0] == 0 then 1 + LeadingZeroes(b[1..]) else 0
  }

  function Repeat<T>(x: T, n: nat): seq<T> { seq(n, _ => x) }

  ghost function Symbols(ds: seq<nat>): (s: string)
    requires DigitString(ds, 58)
    ensures |s| == |ds|
  {
    seq(|ds|, i requires 0 <= i < |ds| => Symbol(ds[i]))
  }

  ghost function Symbol(d: nat): char
    requires d < 58
  {
    AlphabetTable(d);
    ALPHABET[d]
  }

  /** One '1' for every leading zero byte, then the number in base 58. */
  ghost function Encoded(b: seq<nat>): string {
    DigitsAreDigits(Value(b, 256), 58);
    Repeat('1', LeadingZeroes(b)) + Symbols(Digits(Value(b, 256), 58))
  }

  ghost function SkipSpaces(s: string): string {
    if s != [] && IsSpace(s[0]) then SkipSpaces(s[1..]) else s
  }

  ghost function CountOnes(s: string): nat {
    if s != [] && s[0] == '1' then 1 + CountOnes(s[1..]) else 0
  }

  ghost function SkipOnes(s: string): string {
    if s != [] && s[0] == '1' then SkipOnes(s[1..]) else s
  }

  ghost function Word(s: string): string {
    if s != [] && !IsSpace(s[0]) then [s[0]] + Word(s[1..]) else []
  }

  ghost function SkipWord(s: string): string {
    if s != [] && !IsSpace(s[0]) then SkipWord(s[1..]) else s
  }

  ghost predicate AllDigits(w: string) {
    forall i | 0 <= i < |w| :: MapBase58(w[i]) >= 0
  }

  ghost function DigitValues(w: string): (ds: seq<nat>)
    requires AllDigits(w)
    ensures |ds| == |w|
  {
    seq(|w|, i requires 0 <= i < |w| => MapBase58(w[i]))
  }

  /** What text stands for: surrounding spaces do not count, a '1' in front is a zero byte,
      any other character is refused, and so is a result longer than the caller allows. */
  ghost function Decoded(s: string, maxRetLen: int): Option<seq<nat>> {
    var t := SkipSpaces(s);
    var w := Word(SkipOnes(t));
    if !AllDigits(w) || SkipSpaces(SkipWord(SkipOnes(t))) != [] then None
    else Limited(CountOnes(t), Digits(Value(DigitValues(w), 58), 256), maxRetLen)
  }

  ghost function Limited(zeroes: nat, ds: seq<nat>, maxRetLen: int): Option<seq<nat>> {
    if zeroes + |ds| > 0 && zeroes + |ds| > maxRetLen then None
    else Some(Repeat(0, zeroes) + ds)
  }

  // ----- encoding -----

  method EncodeBase58(input: seq<nat>) returns (str: string)
    requires ByteString(input)
    ensures str == Encoded(input)
  {
    hide Pow, Value, Digits, Holds, ALPHABET, Symbol, Symbols;
    var rest := input;
    var zeroes, length := 0, 0;
    while |rest| > 0 && rest[0] == 0
      invariant ByteString(rest) && zeroes + LeadingZeroes(rest) == LeadingZeroes(input)
      invariant Value(rest, 256) == Value(input, 256)
    {
      ValueZeroes(rest, 256, 1);
      rest := rest[1..];
      zeroes := zeroes + 1;
    }
    ghost var bytes := rest;
    var size := |rest| * 138 / 100 + 1;
    var b58 := new nat[size](_ => 0);
    EmptyHolds(b58[..], 58);
    EmptyValue(256);
    ghost var done: seq<nat> := [];
    while |rest| > 0
      invariant done + rest == bytes && ByteString(bytes)
      invariant Holds(b58[..], 58, length) && Value(b58[..], 58) == Value(done, 256)
    {
      ghost var more := done + [rest[0]];
      MoveOne(done, rest, bytes);
      ValuePush(done, rest[0], 256);
      PrefixFits(bytes, more, size);
      length := MulAdd(b58, 58, 256, rest[0], length);
      done := more;
      rest := rest[1..];
    }
    assert done == bytes;
    ghost var s := b58[..];
    HoldsFits(s, 58, length);
    var it := size - length;
    while it != size && b58[it] == 0
      invariant 0 <= it <= size && b58[..] == s
      invariant forall i | 0 <= i < it :: s[i] == 0
    {
      it := it + 1;
    }
    ValueZeroes(s, 58, it);
    DigitsUnique(s[it..], 58);
    str := Translate(b58, it, zeroes);
  }

  /** Writes out the digits from `start` on, after the leading ones. */
  method Translate(b58: array<nat>, start: nat, zeroes: nat) returns (str: string)
    requires start <= b58.Length && DigitString(b58[start..], 58)
    ensures str == Repeat('1', zeroes) + Symbols(b58[start..])
  {
    hide ALPHABET, Symbol, Symbols;
    ghost var ds := b58[start..];
    str := Repeat('1', zeroes);
    var it := start;
    while it != b58.Length
      invariant start <= it <= b58.Length && DigitString(ds, 58)
      invariant str == Repeat('1', zeroes) + Symbols(ds)[..it - start]
    {
      SymbolStep(Repeat('1', zeroes), ds, it - start, str);
      assert b58[it] == ds[it - start];
      str := str + [ALPHABET[b58[it]]];
      it := it + 1;
    }
  }

  lemma SymbolStep(prefix: string, ds: seq<nat>, k: nat, str: string)
    requires DigitString(ds, 58) && k < |ds| && str == prefix + Symbols(ds)[..k]
    ensures |ALPHABET| == 58 && str + [ALPHABET[ds[k]]] == prefix + Symbols(ds)[..k + 1]
  {
    AlphabetTable(ds[k]);
    assert Symbols(ds)[k] == Symbol(ds[k]);
  }

  lemma MoveOne<T>(done: seq<T>, rest: seq<T>, all: seq<T>)
    requires done + rest == all && rest != []
    ensures done + [rest[0]] <= all && done + [rest[0]] + rest[1..] == all
  {
  }

  lemma EmptyValue(base: nat)
    ensures Value([], base) == 0
  {
  }

  lemma EmptyHolds(s: seq<nat>, base: nat)
    requires base > 0 && forall i | 0 <= i < |s| :: s[i] == 0
    ensures Holds(s, base, 0) && Value(s, base) == 0
  {
    ValueZeroes(s, base, |s|);
    assert s[|s|..] == [];
  }

  /** The number read so far fits the buffer. */
  lemma PrefixFits(bytes: seq<nat>, prefix: seq<nat>, size: nat)
    requires ByteString(bytes) && prefix <= bytes && size == |bytes| * 138 / 100 + 1
    ensures Value(prefix, 256) < Pow(58, size)
  {
    ValueBound(prefix, 256);
    PowMonotone(256, |prefix|, |bytes|);
    EncodeRoom(|bytes|);
  }

  // ----- decoding -----

  lemma DigitValuesPush(w: string, c: char)
    requires AllDigits(w) && MapBase58(c) >= 0
    ensures AllDigits(w + [c]) && DigitValues(w + [c]) == DigitValues(w) + [MapBase58(c)]
  {
  }

  lemma DigitValuesBound(w: string)
    requires AllDigits(w)
    ensures DigitString(DigitValues(w), 58)
    ensures w != [] ==> (DigitValues(w)[0] == 0 <==> w[0] == '1')
  {
    forall i | 0 <= i < |w|
      ensures DigitValues(w)[i] < 58 && (DigitValues(w)[i] == 0 <==> w[i] == '1')
    {
      MapTable(w[i]);
    }
  }

  lemma ReadFits(w: string, n: nat)
    requires AllDigits(w) && |w| <= n
    ensures Value(DigitValues(w), 58) < Pow(256, n * 733 / 1000 + 1)
  {
    DigitValuesBound(w);
    ValueBound(DigitValues(w), 58);
    PowMonotone(58, |w|, n);
    DecodeRoom(n);
  }

  lemma {:induction false} DigitsMonotone(v: nat, u: nat, base: nat)
    requires base > 1 && v <= u
    ensures |Digits(v, base)| <= |Digits(u, base)|
    decreases v
  {
    if v > 0 {
      Shrinks(v, base);
      Shrinks(u, base);
      L.DivMod(v, base);
      L.DivMod(u, base);
      if v / base > u / base {
        L.MulMonotone(u / base + 1, v / base, base);
        L.Distribute(base, u / base, 1);
      }
      DigitsMonotone(v / base, u / base, base);
    }
  }

  lemma {:induction false} LongerIsLarger(s: seq<nat>, t: seq<nat>, base: nat)
    requires base > 0
    ensures Value(s, base) <= Value(s + t, base)
    decreases |t|
  {
    if t == [] {
      assert s + t == s;
    } else {
      var n := |t| - 1;
      LongerIsLarger(s, t[..n], base);
      assert s + t == (s + t[..n]) + [t[n]];
      ValuePush(s + t[..n], t[n], base);
      L.MulMonotone(1, base, Value(s + t[..n], base));
    }
  }

  /** Once the result is too long it stays too long. */
  lemma TooLong(done: string, word: string, zeroes: nat, length: nat, maxRetLen: int)
    requires AllDigits(done) && done <= word && done != [] && done[0] != '1'
    requires length == |Digits(Value(DigitValues(done), 58), 256)| && zeroes + length > maxRetLen
    ensures AllDigits(word) ==> Limited(zeroes, Digits(Value(DigitValues(word), 58), 256), maxRetLen).None?
  {
    hide Value, Digits;
    if AllDigits(word) {
      DigitValuesBound(done);
      var ds, more := DigitValues(done), DigitValues(word);
      Positive(ds, 58);
      DigitsAreDigits(Value(ds, 58), 256);
      assert more == ds + more[|ds|..];
      LongerIsLarger(ds, more[|ds|..], 58);
      DigitsMonotone(Value(ds, 58), Value(more, 58), 256);
    }
  }

  lemma WordStep(s: string)
    ensures s != [] && !IsSpace(s[0]) ==> Word(s) == [s[0]] + Word(s[1..]) && SkipWord(s) == SkipWord(s[1..])
    ensures s == [] || IsSpace(s[0]) ==> Word(s) == [] && SkipWord(s) == s
  {
  }

  lemma BadDigit(done: string, word: string)
    requires |done| < |word| && MapBase58(word[|done|]) < 0
    ensures !AllDigits(word)
  {
  }

  /** Reads one character into the buffer. */
  method ReadDigit(b256: array<nat>, carry: nat, length: nat, ghost done: string, ghost c: char, ghost n: nat)
    returns (i: nat)
    requires AllDigits(done) && |done| < n && MapBase58(c) == carry
    requires b256.Length == n * 733 / 1000 + 1
    requires Holds(b256[..], 256, length) && Value(b256[..], 256) == Value(DigitValues(done), 58)
    modifies b256
    ensures AllDigits(done + [c])
    ensures Holds(b256[..], 256, i) && Value(b256[..], 256) == Value(DigitValues(done + [c]), 58)
    ensures i == |Digits(Value(DigitValues(done + [c]), 58), 256)|
  {
    hide Pow, Value, Digits, Holds, DigitValues;
    DigitValuesPush(done, c);
    ValuePush(DigitValues(done), carry, 58);
    ReadFits(done + [c], n);
    i := MulAdd(b256, 256, 58, carry, length);
    HoldsFits(b256[..], 256, i);
    HoldsDigits(b256[..], 256, i);
  }

  /** Reads characters up to the end or a space. */
  method ReadWord(start: string, zeroes: nat, maxRetLen: int)
    returns (ok: bool, rest: string, b256: array<nat>, length: nat)
    requires start != [] ==> start[0] != '1'
    requires zeroes == 0 || zeroes <= maxRetLen
    ensures ok ==> AllDigits(Word(start)) && rest == SkipWord(start)
    ensures ok ==> Holds(b256[..], 256, length) && Value(b256[..], 256) == Value(DigitValues(Word(start)), 58)
    ensures ok ==> zeroes + length == 0 || zeroes + length <= maxRetLen
    ensures !ok && AllDigits(Word(start)) ==>
              Limited(zeroes, Digits(Value(DigitValues(Word(start)), 58), 256), maxRetLen).None?
  {
    hide Pow, Value, Digits, Holds, Word, SkipWord, DigitValues;
    ghost var word := Word(start);
    rest, length := start, 0;
    var size := |rest| * 733 / 1000 + 1;
    b256 := new nat[size](_ => 0);
    EmptyHolds(b256[..], 256);
    EmptyDigits();
    ghost var done := "";
    while |rest| > 0 && !IsSpace(rest[0])
      invariant word == done + Word(rest) && SkipWord(rest) == SkipWord(start)
      invariant AllDigits(done) && done + rest == start
      invariant Holds(b256[..], 256, length) && Value(b256[..], 256) == Value(DigitValues(done), 58)
      invariant zeroes + length == 0 || zeroes + length <= maxRetLen
    {
      WordStep(rest);
      var carry := MapBase58(rest[0]);
      if carry == -1 {
        BadDigit(done, word);
        ok := false;
        return;
      }
      MoveOne(done, rest, start);
      PrefixOfWord(done, rest, word);
      length := ReadDigit(b256, carry, length, done, rest[0], |start|);
      done := done + [rest[0]];
      rest := rest[1..];
      if length + zeroes > maxRetLen {
        TooLong(done, word, zeroes, length, maxRetLen);
        ok := false;
        return;
      }
    }
    WordStep(rest);
    assert done == word;
    ok := true;
  }

  /** Decoding a C string. Both early returns and the late ones give the answer of `Decoded`. */
  method DecodeBase58(psz: string, maxRetLen: int) returns (ok: bool, vch: seq<nat>)
    requires '\0' !in psz
    ensures ok <==> Decoded(psz, maxRetLen).Some?
    ensures ok ==> vch == Decoded(psz, maxRetLen).value
  {
    hide Pow, Value, Digits, Holds, Word, SkipWord, SkipSpaces, SkipOnes, CountOnes, DigitValues;
    var rest := SkipLeadingSpaces(psz);
    vch := [];
    var zeroes: nat, length: nat := 0, 0;
    ok, rest, zeroes := SkipLeadingOnes(rest, maxRetLen);
    if !ok {
      return false, [];
    }
    NoMoreOnes(SkipSpaces(psz));
    var b256: array<nat>;
    ok, rest, b256, length := ReadWord(rest, zeroes, maxRetLen);
    if !ok {
      return false, [];
    }
    rest := SkipLeadingSpaces(rest);
    if |rest| != 0 {
      return false, [];
    }
    HoldsFits(b256[..], 256, length);
    HoldsDigits(b256[..], 256, length);
    vch := CopyOut(b256, b256.Length - length, zeroes);
    ok := true;
  }

  lemma EmptyDigits()
    ensures AllDigits("") && Value(DigitValues(""), 58) == 0 && |Digits(0, 256)| == 0
  {
  }

  lemma PrefixOfWord(done: string, rest: string, word: string)
    requires rest != [] && !IsSpace(rest[0]) && word == done + ([rest[0]] + Word(rest[1..]))
    ensures done + [rest[0]] <= word && word == done + [rest[0]] + Word(rest[1..])
  {
  }

  /** The leading zero bytes, then the buffer from `start` on. */
  method CopyOut(b256: array<nat>, start: nat, zeroes: nat) returns (vch: seq<nat>)
    requires start <= b256.Length
    ensures vch == Repeat(0, zeroes) + b256[start..]
  {
    vch := Repeat(0, zeroes);
    var it := start;
    while it != b256.Length
      invariant start <= it <= b256.Length
      invariant vch == Repeat(0, zeroes) + b256[start..it]
    {
      vch := vch + [b256[it]];
      it := it + 1;
    }
  }

  /** Counts the leading ones, and gives up when they alone are too many. */
  method SkipLeadingOnes(s: string, maxRetLen: int) returns (ok: bool, rest: string, zeroes: nat)
    ensures ok ==> zeroes == CountOnes(s) && rest == SkipOnes(s)
    ensures ok <==> CountOnes(s) == 0 || CountOnes(s) <= maxRetLen
  {
    rest, zeroes := s, 0;
    while |rest| > 0 && rest[0] == '1'
      invariant zeroes + CountOnes(rest) == CountOnes(s) && SkipOnes(rest) == SkipOnes(s)
      invariant zeroes == 0 || zeroes <= maxRetLen
    {
      zeroes := zeroes + 1;
      if zeroes > maxRetLen {
        return false, rest, zeroes;
      }
      rest := rest[1..];
    }
    ok := true;
  }

  lemma NoMoreOnes(s: string)
    ensures SkipOnes(s) != [] ==> SkipOnes(s)[0] != '1'
  {
  }

  method SkipLeadingSpaces(s: string) returns (r: string)
    ensures r == SkipSpaces(s)
  {
    r := s;
    while |r| > 0 && IsSpace(r[0])
      invariant SkipSpaces(r) == SkipSpaces(s)
    {
      r := r[1..];
    }
  }

  // ----- round trips -----

  /** A word of symbols is read whole. */
  lemma {:induction false} WholeWord(w: string)
    requires forall i | 0 <= i < |w| :: !IsSpace(w[i])
    ensures Word(w) == w && SkipWord(w) == []
  {
    if w != [] {
      WholeWord(w[1..]);
    }
  }

  lemma {:induction false} OnesThen(n: nat, w: string)
    requires w != [] ==> w[0] != '1'
    ensures CountOnes(Repeat('1', n) + w) == n && SkipOnes(Repeat('1', n) + w) == w
  {
    var s := Repeat('1', n) + w;
    if n == 0 {
      assert s == w;
    } else {
      assert s[1..] == Repeat('1', n - 1) + w;
      OnesThen(n - 1, w);
    }
  }

  lemma SymbolsRead(ds: seq<nat>)
    requires DigitString(ds, 58)
    ensures AllDigits(Symbols(ds)) && DigitValues(Symbols(ds)) == ds
    ensures forall i | 0 <= i < |ds| :: !IsSpace(Symbols(ds)[i]) && (Symbols(ds)[i] == '1' <==> ds[i] == 0)
  {
    hide ALPHABET, MapBase58, IsSpace;
    forall i | 0 <= i < |ds|
      ensures MapBase58(Symbols(ds)[i]) == ds[i] && !IsSpace(Symbols(ds)[i])
      ensures Symbols(ds)[i] == '1' <==> ds[i] == 0
    {
      AlphabetTable(ds[i]);
      assert Symbols(ds)[i] == Symbol(ds[i]);
    }
  }

  lemma {:induction false} ZeroesThen(b: seq<nat>)
    ensures b == Repeat(0, LeadingZeroes(b)) + b[LeadingZeroes(b)..]
    ensures LeadingZeroes(b) < |b| ==> b[LeadingZeroes(b)] != 0
    ensures forall i | 0 <= i < LeadingZeroes(b) :: b[i] == 0
  {
    if b != [] && b[0] == 0 {
      ZeroesThen(b[1..]);
      OneMoreZero(b, LeadingZeroes(b[1..]));
    } else {
      assert Repeat(0, 0) == [] && b[0..] == b;
    }
  }

  lemma OneMoreZero(b: seq<nat>, z: nat)
    requires b != [] && b[0] == 0 && z <= |b| - 1 && b[1..] == Repeat(0, z) + b[1..][z..]
    ensures b == Repeat(0, z + 1) + b[z + 1..] && b[1..][z..] == b[z + 1..]
    ensures forall i | 0 <= i < z :: b[1..][i] == b[i + 1] == 0
  {
    assert b == [0] + b[1..];
    assert Repeat(0, z + 1) == [0] + Repeat(0, z);
  }

  /** Decoding undoes encoding, for every byte string and every limit that admits it. */
  lemma DecodeEncode(b: seq<nat>, maxRetLen: int)
    requires ByteString(b)
    ensures Decoded(Encoded(b), maxRetLen) == if b == [] || |b| <= maxRetLen then Some(b) else None
  {
    hide Value, Digits, Symbols, DigitValues;
    var z, v := LeadingZeroes(b), Value(b, 256);
    ZeroesThen(b);
    ValueZeroes(b, 256, z);
    DigitsUnique(b[z..], 256);
    DigitsAreDigits(v, 58);
    var ds := Digits(v, 58);
    SymbolsRead(ds);
    EmptyDigitsAt(v, 58);
    var w := Symbols(ds);
    var s := Encoded(b);
    OnesThen(z, w);
    WholeWord(w);
    assert s != [] ==> !IsSpace(s[0]);
    assert SkipSpaces(s) == s && SkipSpaces([]) == [];
  }

  lemma EmptyDigitsAt(v: nat, base: nat)
    requires base > 1
    ensures Digits(v, base) == [] <==> v == 0
  {
  }

  lemma {:induction false} SpacesThen(s: string) returns (pre: string)
    ensures s == pre + SkipSpaces(s) && forall i | 0 <= i < |pre| :: IsSpace(pre[i])
    ensures SkipSpaces(s) != [] ==> !IsSpace(SkipSpaces(s)[0])
  {
    if s != [] && IsSpace(s[0]) {
      var more := SpacesThen(s[1..]);
      pre := [s[0]] + more;
    } else {
      pre := [];
    }
  }

  lemma {:induction false} OnesFront(s: string)
    ensures s == Repeat('1', CountOnes(s)) + SkipOnes(s)
    ensures SkipOnes(s) != [] ==> SkipOnes(s)[0] != '1'
  {
    if s != [] && s[0] == '1' {
      OnesFront(s[1..]);
      assert s == [s[0]] + s[1..];
    }
  }

  lemma {:induction false} WordFront(s: string)
    ensures s == Word(s) + SkipWord(s)
    ensures Word(s) != [] ==> s != [] && Word(s)[0] == s[0]
  {
    if s != [] && !IsSpace(s[0]) {
      WordFront(s[1..]);
      assert s == [s[0]] + s[1..];
    }
  }

  lemma DigitsSpell(w: string)
    requires AllDigits(w)
    ensures DigitString(DigitValues(w), 58) && Symbols(DigitValues(w)) == w
  {
    hide ALPHABET, MapBase58;
    DigitValuesBound(w);
    forall i | 0 <= i < |w|
      ensures Symbols(DigitValues(w))[i] == w[i]
    {
      MapTable(w[i]);
      assert Symbol(DigitValues(w)[i]) == w[i];
    }
  }

  /** Encoding undoes decoding: the text that is accepted is exactly the encoding of the
      result, with nothing but spaces around it. */
  lemma EncodeDecode(s: string, maxRetLen: int) returns (pre: string, post: string)
    requires Decoded(s, maxRetLen).Some?
    ensures s == pre + Encoded(Decoded(s, maxRetLen).value) + post
    ensures forall i | 0 <= i < |pre| :: IsSpace(pre[i])
    ensures forall i | 0 <= i < |post| :: IsSpace(post[i])
    ensures ByteString(Decoded(s, maxRetLen).value)
  {
    hide Value, Digits, Symbols, DigitValues, SkipSpaces, SkipOnes, CountOnes, Word, SkipWord, IsSpace, MapBase58;
    pre := SpacesThen(s);
    var t := SkipSpaces(s);
    OnesFront(t);
    var z, body := CountOnes(t), SkipOnes(t);
    WordFront(body);
    var w := Word(body);
    post := SpacesThen(SkipWord(body));
    DigitsSpell(w);
    DigitValuesBound(w);
    var v := Value(DigitValues(w), 58);
    DigitsUnique(DigitValues(w), 58);
    DigitsAreDigits(v, 256);
    EmptyDigitsAt(v, 256);
    var b := Repeat(0, z) + Digits(v, 256);
    ZeroesCounted(z, Digits(v, 256));
    ValueZeroes(b, 256, z);
    assert b[z..] == Digits(v, 256);
    assert Encoded(b) == Repeat('1', z) + w;
  }

  lemma {:induction false} ZeroesCounted(n: nat, ds: seq<nat>)
    requires ds != [] ==> ds[0] != 0
    ensures LeadingZeroes(Repeat(0, n) + ds) == n
  {
    var b := Repeat(0, n) + ds;
    if n == 0 {
      assert b == ds;
    } else {
      assert b[1..] == Repeat(0, n - 1) + ds;
      ZeroesCounted(n - 1, ds);
    }
  }

  /** Decoding of text that may hold a NUL, which is refused. */
  method DecodeText(str: string, maxRetLen: int) returns (ok: bool, vch: seq<nat>)
    ensures ok <==> '\0' !in str && Decoded(str, maxRetLen).Some?
    ensures ok ==> vch == Decoded(str, maxRetLen).value
  {
    if '\0' in str {
      return false, [];
    }
    ok, vch := DecodeBase58(str, maxRetLen);
  }

  // ----- with a checksum -----

  const INT_MAX := 0x7fff_ffff

  /** The hash the checksum is cut from: any function to at least four bytes. */
  ghost predicate IsHash(hash: seq<nat> -> seq<nat>) {
    forall b: seq<nat> :: |hash(b)| >= 4 && ByteString(hash(b))
  }

  /** Room for the checksum too, as far as the original's integers go. */
  function CheckLimit(maxRetLen: int): (r: int)
    ensures r <= 2147483647 && r <= maxRetLen + 4 && (r == 2147483647 || r == maxRetLen + 4)
  {
    if maxRetLen > INT_MAX - 4 then INT_MAX else maxRetLen + 4
  }

  ghost predicate Checks(v: seq<nat>, hash: seq<nat> -> seq<nat>)
    requires IsHash(hash)
  {
    |v| >= 4 && v[|v| - 4..] == hash(v[..|v| - 4])[..4]
  }

  method EncodeBase58Check(input: seq<nat>, hash: seq<nat> -> seq<nat>) returns (str: string)
    requires ByteString(input) && IsHash(hash)
    ensures str == Encoded(input + hash(input)[..4])
  {
    var vch := input + hash(input)[..4];
    str := EncodeBase58(vch);
  }

  method DecodeBase58Check(psz: string, maxRetLen: int, hash: seq<nat> -> seq<nat>) returns (ok: bool, vch: seq<nat>)
    requires IsHash(hash)
    ensures ok <==> '\0' !in psz && Decoded(psz, CheckLimit(maxRetLen)).Some?
                    && Checks(Decoded(psz, CheckLimit(maxRetLen)).value, hash)
    ensures ok ==> vch + hash(vch)[..4] == Decoded(psz, CheckLimit(maxRetLen)).value
    ensures !ok ==> vch == []
  {
    hide Decoded;
    ok, vch := DecodeText(psz, CheckLimit(maxRetLen));
    if !ok || |vch| < 4 {
      return false, [];
    }
    var n := |vch| - 4;
    var sum := hash(vch[..n]);
    if sum[..4] != vch[n..] {
      return false, [];
    }
    assert vch == vch[..n] + vch[n..];
    vch := vch[..n];
  }

  /** Bytes written with a checksum are read back, and only text that some bytes are written
      as, give or take spaces around it, is accepted. */
  lemma CheckRoundTrip(b: seq<nat>, maxRetLen: int, hash: seq<nat> -> seq<nat>)
    requires ByteString(b) && IsHash(hash)
    ensures var v := b + hash(b)[..4];
            && Checks(v, hash) && v[..|v| - 4] == b
            && Decoded(Encoded(v), CheckLimit(maxRetLen)) ==
               if |b| <= maxRetLen && |b| <= 2147483643 then Some(v) else None
  {
    hide Decoded, Encoded;
    var v := b + hash(b)[..4];
    DecodeEncode(v, CheckLimit(maxRetLen));
    assert v[..|v| - 4] == b;
  }

  lemma CheckAccepts(s: string, maxRetLen: int, hash: seq<nat> -> seq<nat>)
    returns (b: seq<nat>, pre: string, post: string)
    requires IsHash(hash) && Decoded(s, CheckLimit(maxRetLen)).Some?
    requires Checks(Decoded(s, CheckLimit(maxRetLen)).value, hash)
    ensures s == pre + Encoded(b + hash(b)[..4]) + post
    ensures forall i | 0 <= i < |pre| :: IsSpace(pre[i])
    ensures forall i | 0 <= i < |post| :: IsSpace(post[i])
  {
    hide Decoded, Encoded;
    pre, post := EncodeDecode(s, CheckLimit(maxRetLen));
    var v := Decoded(s, CheckLimit(maxRetLen)).value;
    b := v[..|v| - 4];
    assert v == b + hash(b)[..4];
  }
}
