/**
 * JavaScript numbers as far as non-negative decimal integers go: what a digit string converts
 * to, and how an integer prints (the rounding of section 6.1.6.1 and the toString of section
 * 6.1.6.1.20 of ECMA-262).
 */
module JsNumber {
  import opened Decimal

  /** An integer that a double holds exactly, positive infinity, or any other number. */
  datatype Number = Integer(n: int) | Infinity | NotInteger

  const TWO_52: nat := 0x10_0000_0000_0000
  const TWO_53: nat := 0x20_0000_0000_0000

  function TenTo(e: nat): (p: nat)
    ensures p >= 1
  {
    if e == 0 then 1 else 10 * TenTo(e - 1)
  }

  /** How often `u` goes into `n`. */
  function Times(n: nat, u: nat): nat
    requires u >= 1
  {
    if n < u then 0 else Times(n - u, u) + 1
  }

  predicate Multiple(n: nat, u: nat)
    requires u >= 1
  {
    n == 0 || (n >= u && Multiple(n - u, u))
  }

  /** The last multiple of `u` up to `n`. */
  function Below(n: nat, u: nat): (low: nat)
    requires u >= 1
    ensures low <= n < low + u
  {
    if n < u then 0 else Below(n - u, u) + u
  }

  lemma {:induction false} BelowIsMultiple(n: nat, u: nat)
    requires u >= 1
    ensures Multiple(Below(n, u), u)
  {
    if n >= u {
      BelowIsMultiple(n - u, u);
    }
  }

  /** The distance of the doubles around `n`. */
  function Ulp(n: nat): (u: nat)
    ensures u >= 1
  {
    if n < TWO_53 then 1 else 2 * Ulp(n / 2)
  }

  /** The multiple of `u` nearest to `n`, the even one of two. */
  function Nearest(n: nat, u: nat): nat
    requires u >= 1
  {
    var low := Below(n, u);
    if 2 * (n - low) < u || (2 * (n - low) == u && Times(n, u) % 2 == 0) then low else low + u
  }

  function Rounded(n: nat): nat { Nearest(n, Ulp(n)) }

  /** How often `n` must be halved to fit 53 bits; 2^1024, the first past all doubles, takes 972. */
  function Scale(n: nat): nat { if n < TWO_53 then 0 else Scale(n / 2) + 1 }

  /** The number a digit string denotes, by the integer it spells. */
  function FromInteger(n: nat): Number { if Scale(Rounded(n)) >= 972 then Infinity else Integer(Rounded(n)) }

  /** Digits that spell `m` denote the integer `x`. */
  predicate ReadsBack(m: nat, x: nat) { FromInteger(m) == Integer(x) }

  /** A double holds `n` exactly. */
  predicate Exact(n: nat) { ReadsBack(n, n) }

  /** The values a number of the program can have. */
  predicate IsDouble(x: Number) { x.Integer? ==> Exact(if x.n < 0 then -x.n else x.n) }

  // ---------------------------------------------------------------- rounding is monotone

  lemma {:induction false} UlpBrackets(n: nat)
    ensures n < TWO_53 * Ulp(n)
    ensures n >= TWO_53 ==> TWO_52 * Ulp(n) <= n
  {
    if n >= TWO_53 {
      UlpBrackets(n / 2);
    }
  }

  lemma {:induction false} UlpGrows(m: nat, n: nat)
    requires m <= n
    ensures Ulp(m) == Ulp(n) || 2 * Ulp(m) <= Ulp(n)
  {
    if m >= TWO_53 {
      UlpGrows(m / 2, n / 2);
    }
  }

  /** Different multiples of `u` are at least `u` apart. */
  lemma {:induction false} Apart(a: nat, b: nat, u: nat)
    requires u >= 1 && Multiple(a, u) && Multiple(b, u)
    ensures a < b ==> a + u <= b
  {
    if a != 0 && b != 0 {
      Apart(a - u, b - u, u);
    }
  }

  lemma {:induction false} ProductIsMultiple(k: nat, u: nat)
    requires u >= 1
    ensures Multiple(k * u, u)
  {
    if k > 0 {
      ProductIsMultiple(k - 1, u);
      assert k * u == (k - 1) * u + u;
    }
  }

  lemma NearestStaysAbove(n: nat, u: nat, k: nat)
    requires u >= 1 && Multiple(k, u) && k <= n
    ensures k <= Nearest(n, u)
  {
    BelowIsMultiple(n, u);
    Apart(Below(n, u), k, u);
  }

  lemma NearestStaysBelow(n: nat, u: nat, k: nat)
    requires u >= 1 && Multiple(k, u) && n <= k
    ensures Nearest(n, u) <= k
  {
    BelowIsMultiple(n, u);
    Apart(Below(n, u), k, u);
  }

  lemma {:induction false} BelowMonotone(m: nat, n: nat, u: nat)
    requires u >= 1 && m <= n
    ensures (Below(m, u) == Below(n, u) && Times(m, u) == Times(n, u)) || Below(m, u) + u <= Below(n, u)
  {
    if m >= u {
      BelowMonotone(m - u, n - u, u);
    } else if n >= u {
      assert Below(n, u) >= u;
    }
  }

  lemma NearestMonotone(m: nat, n: nat, u: nat)
    requires u >= 1 && m <= n
    ensures Nearest(m, u) <= Nearest(n, u)
  {
    BelowMonotone(m, n, u);
  }

  lemma RoundedMonotone(m: nat, n: nat)
    requires m <= n
    ensures Rounded(m) <= Rounded(n)
  {
    var u, v := Ulp(m), Ulp(n);
    UlpGrows(m, n);
    if u == v {
      NearestMonotone(m, n, u);
    } else {
      UlpBrackets(m);
      UlpBrackets(n);
      ProductIsMultiple(TWO_53, u);
      ProductIsMultiple(TWO_52, v);
      NearestStaysBelow(m, u, TWO_53 * u);
      NearestStaysAbove(n, v, TWO_52 * v);
      assert n >= TWO_53;
    }
  }

  // ---------------------------------------------------------------- printing

  /** Of the multiples of 10^z around `x` that read back as `x` the nearest one, or one for a smaller `z`. */
  function ShortestAt(x: nat, z: nat): (m: nat)
    requires Exact(x)
    ensures FromInteger(m) == Integer(x)
  {
    var p := TenTo(z);
    var low := Below(x, p);
    var high := low + p;
    if z == 0 then x
    else if FromInteger(low) == Integer(x)
      && (FromInteger(high) != Integer(x) || 2 * (x - low) < p || (2 * (x - low) == p && Times(x, p) % 2 == 0)) then low
    else if FromInteger(high) == Integer(x) then high
    else ShortestAt(x, z - 1)
  }

  /** The decimal integer with the fewest significant digits that reads back as `x`. */
  function Shortest(x: nat): (m: nat)
    requires Exact(x)
    ensures FromInteger(m) == Integer(x)
  {
    ShortestAt(x, |Print(x)|)
  }

  function StripZeros(s: string): (r: string)
    ensures r <= s && (s != [] ==> r != [])
  {
    if |s| > 1 && s[|s| - 1] == '0' then StripZeros(s[..|s| - 1]) else s
  }

  function Mantissa(digits: string): string
    requires digits != []
  {
    if |digits| == 1 then digits else [digits[0], '.'] + digits[1..]
  }

  /** `1e+21`, `1.5e+21`, ... */
  function Exponential(m: nat): string {
    Mantissa(StripZeros(Print(m))) + "e+" + Print(|Print(m)| - 1)
  }

  const TEN_21: nat := 1_000_000_000_000_000_000_000

  /** String of a positive integer. */
  function ToString(x: nat): string
    requires Exact(x)
  {
    if Shortest(x) < TEN_21 then Print(Shortest(x)) else Exponential(Shortest(x))
  }

  // ---------------------------------------------------------------- no shorter number reads back

  /** What lies between `x` and a number that reads back as `x` does, too. */
  lemma BetweenReadsBack(x: nat, c: nat, m: nat)
    requires Exact(x) && ReadsBack(c, x) && (c <= m <= x || x <= m <= c)
    ensures ReadsBack(m, x)
  {
    if c <= x {
      RoundedMonotone(c, m);
      RoundedMonotone(m, x);
    } else {
      RoundedMonotone(x, m);
      RoundedMonotone(m, c);
    }
  }

  lemma NeighboursReadBack(x: nat, c: nat, p: nat)
    requires p >= 1 && Exact(x) && Multiple(c, p) && ReadsBack(c, x)
    ensures ReadsBack(Below(x, p), x) || ReadsBack(Below(x, p) + p, x)
  {
    var low := Below(x, p);
    BelowIsMultiple(x, p);
    Apart(low, c, p);
    BetweenReadsBack(x, c, if c <= low then low else low + p);
  }

  lemma MultipleUp(n: nat, k: nat, u: nat)
    requires u >= 1 && Multiple(n, u)
    ensures Multiple(n + k * u, u)
    decreases k
  {
    if k > 0 {
      MultipleUp(n, k - 1, u);
      assert n + k * u == n + (k - 1) * u + u;
    }
  }

  lemma {:induction false} MultipleOfTenfold(n: nat, u: nat)
    requires u >= 1 && Multiple(n, 10 * u)
    ensures Multiple(n, u)
  {
    if n > 0 {
      MultipleOfTenfold(n - 10 * u, u);
      MultipleUp(n - 10 * u, 10, u);
    }
  }

  lemma {:induction false} MoreZeros(n: nat, y: nat, z: nat)
    requires z <= y && Multiple(n, TenTo(y))
    ensures Multiple(n, TenTo(z))
    decreases y
  {
    if z < y {
      MultipleOfTenfold(n, TenTo(y - 1));
      MoreZeros(n, y - 1, z);
    }
  }

  lemma {:induction false} AnyHasNoZeros(n: nat)
    ensures Multiple(n, TenTo(0))
  {
    if n > 0 {
      AnyHasNoZeros(n - 1);
    }
  }

  lemma NeighbourPicked(x: nat, y: nat)
    requires Exact(x) && y > 0 && (ReadsBack(Below(x, TenTo(y)), x) || ReadsBack(Below(x, TenTo(y)) + TenTo(y), x))
    ensures ShortestAt(x, y) == Below(x, TenTo(y)) || ShortestAt(x, y) == Below(x, TenTo(y)) + TenTo(y)
  {
  }

  lemma NeighbourSkipped(x: nat, y: nat)
    requires Exact(x) && y > 0 && !ReadsBack(Below(x, TenTo(y)), x) && !ReadsBack(Below(x, TenTo(y)) + TenTo(y), x)
    ensures ShortestAt(x, y) == ShortestAt(x, y - 1)
  {
  }

  lemma NeighboursHaveZeros(x: nat, y: nat, z: nat)
    requires z <= y
    ensures Multiple(Below(x, TenTo(y)), TenTo(z)) && Multiple(Below(x, TenTo(y)) + TenTo(y), TenTo(z))
  {
    BelowIsMultiple(x, TenTo(y));
    MoreZeros(Below(x, TenTo(y)), y, z);
    MoreZeros(Below(x, TenTo(y)) + TenTo(y), y, z);
  }

  lemma OneOfTwo(m: nat, a: nat, b: nat, u: nat)
    requires u >= 1 && (m == a || m == b) && Multiple(a, u) && Multiple(b, u)
    ensures Multiple(m, u)
  {
  }

  lemma PickedHasZeros(x: nat, y: nat, z: nat)
    requires Exact(x) && z <= y && y > 0 && (ReadsBack(Below(x, TenTo(y)), x) || ReadsBack(Below(x, TenTo(y)) + TenTo(y), x))
    ensures Multiple(ShortestAt(x, y), TenTo(z))
  {
    NeighbourPicked(x, y);
    NeighboursHaveZeros(x, y, z);
    OneOfTwo(ShortestAt(x, y), Below(x, TenTo(y)), Below(x, TenTo(y)) + TenTo(y), TenTo(z));
  }

  lemma TopHasZeros(x: nat, z: nat, c: nat)
    requires Exact(x) && Multiple(c, TenTo(z)) && ReadsBack(c, x)
    ensures Multiple(ShortestAt(x, z), TenTo(z))
  {
    if z == 0 {
      AnyHasNoZeros(ShortestAt(x, 0));
    } else {
      NeighboursReadBack(x, c, TenTo(z));
      PickedHasZeros(x, z, z);
    }
  }

  lemma HigherHasZeros(x: nat, y: nat, z: nat)
    requires Exact(x) && z < y && Multiple(ShortestAt(x, y - 1), TenTo(z))
    ensures Multiple(ShortestAt(x, y), TenTo(z))
  {
    if ReadsBack(Below(x, TenTo(y)), x) || ReadsBack(Below(x, TenTo(y)) + TenTo(y), x) {
      PickedHasZeros(x, y, z);
    } else {
      NeighbourSkipped(x, y);
    }
  }

  lemma ZerosStay(x: nat, y: nat, z: nat)
    requires Exact(x) && z <= y && Multiple(ShortestAt(x, z), TenTo(z))
    ensures Multiple(ShortestAt(x, y), TenTo(z))
  {
    for i := z to y
      invariant Multiple(ShortestAt(x, i), TenTo(z))
    {
      HigherHasZeros(x, i + 1, z);
    }
  }

  /** Whenever some number with `z` trailing zeros reads back as `x`, the printed one has as many. */
  lemma ShortestHasZeros(x: nat, z: nat, c: nat)
    requires Exact(x) && z <= |Print(x)| && Multiple(c, TenTo(z)) && ReadsBack(c, x)
    ensures Multiple(Shortest(x), TenTo(z))
  {
    TopHasZeros(x, z, c);
    ZerosStay(x, |Print(x)|, z);
  }

  // ---------------------------------------------------------------- where exponents start

  lemma MultipleRoundsToItself(n: nat, u: nat)
    requires u >= 1 && Multiple(n, u)
    ensures Nearest(n, u) == n
  {
    BelowIsMultiple(n, u);
    Apart(Below(n, u), n, u);
  }

  lemma Ten21IsMultiple()
    ensures Multiple(TEN_21, 0x2_0000)
  {
    ProductIsMultiple(7629394531250000, 0x2_0000);
    assert TEN_21 == 7629394531250000 * 0x2_0000;
  }

  lemma Ten21Ulp()
    ensures Ulp(TEN_21) == 0x2_0000
  {
    assert Ulp(122_070_312_500_000_000) == 0x10;
    assert Ulp(1_953_125_000_000_000_000) == 0x100;
    assert Ulp(31_250_000_000_000_000_000) == 0x1000;
    assert Ulp(500_000_000_000_000_000_000) == 0x1_0000;
  }

  lemma Ten21Scale()
    ensures Scale(TEN_21) == 17
  {
    assert Scale(122_070_312_500_000_000) == 4;
    assert Scale(1_953_125_000_000_000_000) == 8;
    assert Scale(31_250_000_000_000_000_000) == 12;
  }

  lemma Ten21IsExact()
    ensures Exact(TEN_21)
  {
    Ten21Scale();
    Ten21Ulp();
    Ten21IsMultiple();
    MultipleRoundsToItself(TEN_21, Ulp(TEN_21));
  }

  lemma Ten21IsPower()
    ensures TenTo(21) == TEN_21
  {
    assert TenTo(7) == 10_000_000;
    assert TenTo(14) == 100_000_000_000_000;
  }

  /** An integer prints with an exponent exactly from 10^21 on. */
  lemma ExponentIff(x: nat)
    requires Exact(x) && x >= 1
    ensures Shortest(x) < TEN_21 <==> x < TEN_21
  {
    Ten21IsExact();
    Ten21IsPower();
    var m := Shortest(x);
    if x < TEN_21 <= m {
      RoundedMonotone(TEN_21, m);
    }
    if m < TEN_21 <= x {
      RoundedMonotone(m, TEN_21);
      assert x == TEN_21;
      Ten21HasZeros();
    }
  }

  lemma Ten21HasZeros()
    ensures Exact(TEN_21) && Shortest(TEN_21) >= TEN_21
  {
    Ten21IsExact();
    Ten21IsPower();
    ProductIsMultiple(1, TEN_21);
    PrintLength(TEN_21, 21);
    ShortestHasZeros(TEN_21, 21, TEN_21);
    assert FromInteger(0) == Integer(0);
  }

  lemma {:induction false} PrintLength(n: nat, e: nat)
    requires n >= TenTo(e)
    ensures |Print(n)| > e
  {
    if e > 0 {
      PrintLength(n / 10, e - 1);
    }
  }

  // ---------------------------------------------------------------- different numbers print differently

  function Zeros(n: nat): string { seq(n, _ => '0') }

  lemma {:induction false} ZerosRestored(s: string)
    ensures s == StripZeros(s) + Zeros(|s| - |StripZeros(s)|)
  {
    if |s| > 1 && s[|s| - 1] == '0' {
      var init := s[..|s| - 1];
      ZerosRestored(init);
      assert s == init + ['0'];
    }
  }

  lemma MantissaInjective(a: string, b: string)
    requires a != [] && b != [] && Mantissa(a) == Mantissa(b)
    ensures a == b
  {
    if |a| > 1 {
      assert |b| > 1;
      assert a[1..] == Mantissa(a)[2..] && b[1..] == Mantissa(b)[2..];
      assert a == [Mantissa(a)[0]] + a[1..] && b == [Mantissa(b)[0]] + b[1..];
    }
  }

  lemma FirstE(a: string, x: string)
    requires 'e' !in a
    ensures var s := a + "e+" + x; s[|a|] == 'e' && forall i | 0 <= i < |a| :: s[i] != 'e'
  {
    assert forall i | 0 <= i < |a| :: (a + "e+" + x)[i] == a[i];
  }

  lemma CutAtE(a: string, x: string, b: string, y: string)
    requires 'e' !in a && 'e' !in b && a + "e+" + x == b + "e+" + y
    ensures a == b && x == y
  {
    var s := a + "e+" + x;
    FirstE(a, x);
    FirstE(b, y);
    assert |a| == |b|;
    assert a == s[..|a|] && b == s[..|b|];
    assert x == s[|a| + 2..] && y == s[|b| + 2..];
  }

  lemma MantissaHasNoE(m: nat)
    ensures 'e' !in Mantissa(StripZeros(Print(m)))
  {
    var digits := StripZeros(Print(m));
    assert forall i | 0 <= i < |digits| :: digits[i] == Print(m)[i] && IsDigit(digits[i]);
  }

  lemma ExponentialInjective(m: nat, n: nat)
    requires Exponential(m) == Exponential(n)
    ensures m == n
  {
    MantissaHasNoE(m);
    MantissaHasNoE(n);
    var a, b := StripZeros(Print(m)), StripZeros(Print(n));
    CutAtE(Mantissa(a), Print(|Print(m)| - 1), Mantissa(b), Print(|Print(n)| - 1));
    PrintInjective(|Print(m)| - 1, |Print(n)| - 1);
    MantissaInjective(a, b);
    ZerosRestored(Print(m));
    ZerosRestored(Print(n));
    PrintInjective(m, n);
  }

  lemma PrintIsNotExponential(m: nat, n: nat)
    ensures Print(m) != Exponential(n)
  {
    var a := Mantissa(StripZeros(Print(n)));
    assert Exponential(n)[|a|] == 'e';
    if |Print(m)| > |a| { assert IsDigit(Print(m)[|a|]); }
  }

  /** Two integers that print alike are one. */
  lemma ToStringInjective(x: nat, y: nat)
    requires Exact(x) && Exact(y) && ToString(x) == ToString(y)
    ensures x == y
  {
    var m, n := Shortest(x), Shortest(y);
    if m < TEN_21 && n < TEN_21 {
      PrintInjective(m, n);
    } else if m >= TEN_21 && n >= TEN_21 {
      ExponentialInjective(m, n);
    } else {
      PrintIsNotExponential(m, n);
      PrintIsNotExponential(n, m);
    }
  }

  // ---------------------------------------------------------------- past the doubles

  lemma {:induction false} ScaleOfUlp(n: nat)
    requires n >= TWO_53
    ensures Scale(TWO_52 * Ulp(n)) == Scale(n)
  {
    if n / 2 >= TWO_53 {
      ScaleOfUlp(n / 2);
      assert TWO_52 * Ulp(n) / 2 == TWO_52 * Ulp(n / 2);
    } else {
      assert Scale(TWO_53) == 1;
    }
  }

  lemma {:induction false} ScaleMonotone(m: nat, n: nat)
    requires m <= n
    ensures Scale(m) <= Scale(n)
  {
    if m >= TWO_53 {
      ScaleMonotone(m / 2, n / 2);
    }
  }

  /** Rounding does not bring a number back below 2^1024. */
  lemma LargeIsInfinite(n: nat)
    requires Scale(n) >= 972
    ensures FromInteger(n) == Infinity
  {
    UlpBrackets(n);
    ProductIsMultiple(TWO_52, Ulp(n));
    NearestStaysAbove(n, Ulp(n), TWO_52 * Ulp(n));
    ScaleOfUlp(n);
    ScaleMonotone(TWO_52 * Ulp(n), Rounded(n));
  }

  lemma {:induction false} TenToScale(k: nat)
    ensures TenTo(16 + k) >= TWO_53 && Scale(TenTo(16 + k)) >= 3 * k + 1
  {
    if k == 0 {
      assert TenTo(8) == 100_000_000;
      assert TenTo(16) == 10_000_000_000_000_000;
    } else {
      var n := TenTo(16 + k - 1);
      TenToScale(k - 1);
      ScaleMonotone(8 * n, 10 * n);
      assert Scale(8 * n) == Scale(4 * n) + 1 && Scale(4 * n) == Scale(2 * n) + 1 && Scale(2 * n) == Scale(n) + 1;
    }
  }

  /** A one and 340 zeros. */
  lemma TenTo340IsInfinite()
    ensures FromInteger(TenTo(340)) == Infinity
  {
    TenToScale(324);
    LargeIsInfinite(TenTo(340));
  }

  // ---------------------------------------------------------------- rounding twice

  /** Numbers between the two brackets of `n` have its spacing. */
  lemma {:induction false} UlpBetween(n: nat, r: nat)
    requires n >= TWO_53 && TWO_52 * Ulp(n) <= r < TWO_53 * Ulp(n)
    ensures Ulp(r) == Ulp(n)
  {
    if n / 2 >= TWO_53 {
      UlpBetween(n / 2, r / 2);
    }
  }

  lemma {:induction false} UlpAtTop(n: nat)
    requires n >= TWO_53
    ensures Ulp(TWO_53 * Ulp(n)) == 2 * Ulp(n)
  {
    if n / 2 >= TWO_53 {
      UlpAtTop(n / 2);
      assert TWO_53 * Ulp(n) / 2 == TWO_53 * Ulp(n / 2);
    } else {
      assert Ulp(TWO_53) == 2;
    }
  }

  lemma NearestIsMultiple(n: nat, u: nat)
    requires u >= 1
    ensures Multiple(Nearest(n, u), u)
  {
    BelowIsMultiple(n, u);
  }

  /** What a digit string denotes is a double. */
  lemma RoundedIsExact(n: nat)
    ensures Rounded(Rounded(n)) == Rounded(n)
  {
    var u, r := Ulp(n), Rounded(n);
    if n < TWO_53 {
      PlainIsExact(n);
    } else {
      UlpBrackets(n);
      ProductIsMultiple(TWO_52, u);
      ProductIsMultiple(TWO_53, u);
      NearestStaysAbove(n, u, TWO_52 * u);
      NearestStaysBelow(n, u, TWO_53 * u);
      if r < TWO_53 * u {
        UlpBetween(n, r);
        NearestIsMultiple(n, u);
        MultipleRoundsToItself(r, u);
      } else {
        UlpAtTop(n);
        ProductIsMultiple(TWO_52, 2 * u);
        assert r == TWO_52 * (2 * u);
        MultipleRoundsToItself(r, 2 * u);
      }
    }
  }

  lemma {:induction false} BelowOne(n: nat)
    ensures Below(n, 1) == n
  {
    if n > 0 {
      BelowOne(n - 1);
    }
  }

  lemma PlainIsExact(n: nat)
    requires n < TWO_53
    ensures Rounded(n) == n && FromInteger(n) == Integer(n)
  {
    BelowOne(n);
  }

  lemma FromIntegerIsDouble(n: nat)
    ensures IsDouble(FromInteger(n))
    ensures FromInteger(n) == Integer(0) <==> n == 0
  {
    RoundedIsExact(n);
    PlainIsExact(0);
    PlainIsExact(1);
    if n >= 1 {
      RoundedMonotone(1, n);
    }
  }

  // ---------------------------------------------------------------- rounding is to the nearest

  /** 53 bits and a power of two hold `d`. */
  predicate Fits(d: nat) { d < TWO_53 || (d % 2 == 0 && Fits(d / 2)) }

  function Distance(a: nat, b: nat): nat { if a < b then b - a else a - b }

  lemma {:induction false} DoubleMultiple(n: nat, u: nat)
    requires u >= 1
    ensures Multiple(2 * n, 2 * u) <==> Multiple(n, u)
  {
    if n >= u {
      DoubleMultiple(n - u, u);
      assert 2 * n - 2 * u == 2 * (n - u);
    }
  }

  lemma {:induction false} MultipleIsEven(n: nat, u: nat)
    requires u >= 1 && Multiple(n, 2 * u)
    ensures n % 2 == 0
  {
    if n != 0 {
      MultipleIsEven(n - 2 * u, u);
    }
  }

  lemma {:induction false} EveryMultiple(n: nat)
    ensures Multiple(n, 1)
  {
    if n > 0 {
      EveryMultiple(n - 1);
    }
  }

  /** Doubles from the lower bracket of `n` on have at least its spacing. */
  lemma {:induction false} FitsIsMultiple(n: nat, d: nat)
    requires Fits(d) && d >= TWO_52 * Ulp(n)
    ensures Multiple(d, Ulp(n))
  {
    if n < TWO_53 {
      EveryMultiple(d);
    } else {
      assert d >= TWO_53 * Ulp(n / 2) >= TWO_53;
      FitsIsMultiple(n / 2, d / 2);
      DoubleMultiple(d / 2, Ulp(n / 2));
    }
  }

  lemma {:induction false} MultipleFits(n: nat, r: nat)
    requires Multiple(r, Ulp(n)) && r <= TWO_53 * Ulp(n)
    ensures Fits(r)
  {
    if n < TWO_53 {
      assert r == TWO_53 ==> Fits(r / 2);
    } else {
      MultipleIsEven(r, Ulp(n / 2));
      DoubleMultiple(r / 2, Ulp(n / 2));
      MultipleFits(n / 2, r / 2);
    }
  }

  lemma NearestOfMultiples(n: nat, u: nat, d: nat)
    requires u >= 1 && Multiple(d, u)
    ensures Distance(n, Nearest(n, u)) <= Distance(n, d)
  {
    BelowIsMultiple(n, u);
    Apart(Below(n, u), d, u);
    Apart(d, Below(n, u), u);
  }

  lemma RoundedWithin(n: nat)
    ensures TWO_52 * Ulp(n) <= n ==> TWO_52 * Ulp(n) <= Rounded(n)
    ensures Rounded(n) <= TWO_53 * Ulp(n)
  {
    UlpBrackets(n);
    ProductIsMultiple(TWO_52, Ulp(n));
    ProductIsMultiple(TWO_53, Ulp(n));
    if TWO_52 * Ulp(n) <= n { NearestStaysAbove(n, Ulp(n), TWO_52 * Ulp(n)); }
    NearestStaysBelow(n, Ulp(n), TWO_53 * Ulp(n));
  }

  /** A digit string denotes, short of infinity, a double no other double is nearer to. */
  lemma RoundedIsNearest(n: nat, d: nat)
    requires Fits(d)
    ensures Fits(Rounded(n)) && Distance(n, Rounded(n)) <= Distance(n, d)
  {
    var u := Ulp(n);
    NearestIsMultiple(n, u);
    RoundedWithin(n);
    MultipleFits(n, Rounded(n));
    if n < TWO_53 {
      PlainIsExact(n);
    } else if d >= TWO_52 * u {
      FitsIsMultiple(n, d);
      NearestOfMultiples(n, u, d);
    } else {
      UlpBrackets(n);
      ProductIsMultiple(TWO_52, u);
      NearestOfMultiples(n, u, TWO_52 * u);
    }
  }

  lemma {:induction false} TimesEven(n: nat, u: nat)
    requires u >= 1
    ensures Multiple(Below(n, u) + if Times(n, u) % 2 == 0 then 0 else u, 2 * u)
  {
    if n >= 2 * u {
      TimesEven(n - 2 * u, u);
      assert Below(n, u) == Below(n - 2 * u, u) + 2 * u;
      assert Times(n, u) == Times(n - 2 * u, u) + 2;
    } else if n >= u {
      assert Below(n, u) == u && Times(n, u) == 1;
    }
  }

  /** Of two nearest doubles it is the one with the even significand. */
  lemma TiesToEven(n: nat, d: nat)
    requires Multiple(d, Ulp(n)) && d != Rounded(n) && Distance(n, d) == Distance(n, Rounded(n))
    ensures Multiple(Rounded(n), 2 * Ulp(n))
  {
    var u := Ulp(n);
    BelowIsMultiple(n, u);
    Apart(Below(n, u), d, u);
    Apart(d, Below(n, u), u);
    TimesEven(n, u);
  }

  function TwoTo(e: nat): (p: nat)
    ensures p >= 1
  {
    if e == 0 then 1 else 2 * TwoTo(e - 1)
  }

  lemma {:induction false} ScaleIff(n: nat, k: nat)
    requires k >= 1
    ensures Scale(n) >= k <==> n >= TWO_53 * TwoTo(k - 1)
  {
    if k == 1 {
      assert TwoTo(k - 1) == 1;
    } else if n >= TWO_53 {
      ScaleIff(n / 2, k - 1);
      assert TWO_53 * TwoTo(k - 1) == 2 * (TWO_53 * TwoTo(k - 2));
    }
  }

  lemma {:induction false} TwoToSum(a: nat, b: nat, p: nat)
    requires TwoTo(a) == p
    ensures TwoTo(a + b) == p * TwoTo(b)
    decreases b
  {
    if b > 0 {
      TwoToSum(a, b - 1, p);
      assert p * TwoTo(b) == 2 * (p * TwoTo(b - 1));
    }
  }

  /** Infinity from 2^1024 on, after rounding, and from nowhere else. */
  lemma InfiniteIff(n: nat)
    ensures FromInteger(n) == Infinity <==> Rounded(n) >= TwoTo(1024)
  {
    TwoTo53();
    TwoToSum(53, 971, TWO_53);
    ScaleIff(Rounded(n), 972);
  }

  lemma TwoTo53()
    ensures TwoTo(53) == TWO_53
  {
    assert TwoTo(8) == 0x100;
    TwoToSum(8, 8, 0x100);
    TwoToSum(16, 16, 0x1_0000);
    TwoToSum(32, 16, 0x1_0000_0000);
    TwoToSum(48, 5, 0x1_0000_0000_0000);
    assert TwoTo(5) == 32;
  }

  // ---------------------------------------------------------------- the printed characters

  lemma ToStringChars(x: nat)
    requires Exact(x)
    ensures forall i | 0 <= i < |ToString(x)| :: var c := ToString(x)[i]; IsDigit(c) || c == '.' || c == 'e' || c == '+'
    ensures Shortest(x) >= TEN_21 ==> '+' in ToString(x)
  {
    var m := Shortest(x);
    if m >= TEN_21 {
      var digits := StripZeros(Print(m));
      assert forall i | 0 <= i < |digits| :: digits[i] == Print(m)[i];
      assert Exponential(m)[|Mantissa(digits)| + 1] == '+';
    }
  }
}
