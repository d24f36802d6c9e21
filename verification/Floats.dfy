/**
 Finite binary64 numbers without overflow, counted in units of the least positive one (2^-1074).
 A number is then an integer `m * 2^e` with a significand `m` of at most 53 bits and an exponent
 `e >= 0`; addition rounds the exact integer sum to nearest, ties to even, as section 4.3.1 of
 IEEE 754-2019 prescribes.
 */
module Floats {

  /** 2^53: significands are below it in magnitude. */
  const TOP: nat := 0x20_0000_0000_0000

  function Pow2(k: nat): (r: nat)
    ensures r > 0
  {
    if k == 0 then 1 else 2 * Pow2(k - 1)
  }

  function Abs(n: int): (r: nat)
    ensures r == n || r == -n
  {
    if n < 0 then -n else n
  }

  ghost predicate HasForm(n: int, m: int, e: nat) {
    n == m * Pow2(e) && Abs(m) < TOP
  }

  ghost predicate IsFloat(n: int) {
    exists m: int, e: nat :: HasForm(n, m, e)
  }

  // ---------- Rounding ----------

  /** The exponent of the last place: the least `e` with `n` below 2^53 units of 2^e. */
  function Exponent(n: nat): (e: nat)
    ensures n < TOP * Pow2(e)
    ensures e > 0 ==> 2 * n >= TOP * Pow2(e)
  {
    if n < TOP then 0 else Exponent(n / 2) + 1
  }

  /** The multiple of `unit` nearest to `n`, and the one with the even quotient when two are as near. */
  function NearestOnGrid(n: nat, unit: nat): nat
    requires unit > 0
  {
    var q, r := n / unit, n % unit;
    var quotient: nat := if 2 * r < unit || (2 * r == unit && q % 2 == 0) then q else q + 1;
    quotient * unit
  }

  function RoundMagnitude(n: nat): nat {
    NearestOnGrid(n, Pow2(Exponent(n)))
  }

  function Round(n: int): int {
    if n < 0 then 0 - RoundMagnitude(-n) else RoundMagnitude(n)
  }

  function Add(x: int, y: int): int {
    Round(x + y)
  }

  function Sub(x: int, y: int): int {
    Round(x - y)
  }

  // ---------- Multiples of powers of two ----------

  lemma {:induction false} MulMonotone(a: int, b: int, c: nat)
    ensures a <= b ==> a * c <= b * c
  {
  }

  lemma {:induction false} MulCancel(a: int, b: int, c: nat)
    requires a * c < b * c
    ensures a < b
  {
    MulMonotone(b, a, c);
  }

  lemma {:induction false} Pow2Doubles(e: nat)
    ensures Pow2(0) == 1 && Pow2(e + 1) == 2 * Pow2(e) && Pow2(e + 2) == 4 * Pow2(e)
  {
  }

  lemma {:induction false} Pow2Adds(a: nat, b: nat)
    ensures Pow2(a + b) == Pow2(a) * Pow2(b)
  {
    hide Pow2;
    if a == 0 {
      Pow2Doubles(0);
    } else {
      Pow2Adds(a - 1, b);
      Pow2Doubles(a - 1);
      Pow2Doubles(a - 1 + b);
    }
  }

  lemma {:induction false} TopIsAPower()
    ensures TOP == Pow2(53)
  {
    hide Pow2;
    Pow2Doubles(0);
    for k := 1 to 8
      invariant Pow2(k) == [1, 2, 4, 8, 16, 32, 64, 128, 256][k]
    {
      Pow2Doubles(k);
    }
    Pow2Adds(8, 8);
    Pow2Adds(16, 8);
    Pow2Adds(24, 24);
    Pow2Doubles(48);
    Pow2Doubles(50);
    Pow2Doubles(52);
  }

  lemma {:induction false} Pow2Grows(a: nat, b: nat)
    ensures a <= b ==> Pow2(a) <= Pow2(b)
  {
    if a <= b {
      Pow2Adds(b - a, a);
      MulMonotone(1, Pow2(b - a), Pow2(a));
    }
  }

  ghost predicate IsMultiple(n: int, e: nat) {
    exists m: int :: n == m * Pow2(e)
  }

  lemma {:induction false} OnGrid(n: int, m: int, e: nat)
    requires n == m * Pow2(e)
    ensures IsMultiple(n, e)
  {
  }

  lemma {:induction false} MultipleOfLess(n: int, e: nat, d: nat)
    requires IsMultiple(n, e) && d <= e
    ensures IsMultiple(n, d)
  {
    var m :| n == m * Pow2(e);
    Pow2Adds(e - d, d);
    assert n == (m * Pow2(e - d)) * Pow2(d);
  }

  lemma {:induction false} MultiplesSubtract(a: int, b: int, e: nat)
    requires IsMultiple(a, e) && IsMultiple(b, e)
    ensures IsMultiple(a - b, e) && IsMultiple(a + b, e)
  {
    var m :| a == m * Pow2(e);
    var k :| b == k * Pow2(e);
    assert a - b == (m - k) * Pow2(e) && a + b == (m + k) * Pow2(e);
  }

  /** A multiple of 2^e of at most 53 bits, or exactly the next power of two, is a float. */
  lemma {:induction false} SmallMultipleIsFloat(n: int, e: nat)
    requires IsMultiple(n, e) && Abs(n) <= TOP * Pow2(e)
    ensures IsFloat(n)
  {
    var m :| n == m * Pow2(e);
    var unit := Pow2(e);
    assert Abs(n) == Abs(m) * unit;
    if Abs(m) > TOP {
      MulMonotone(TOP + 1, Abs(m), unit);
    }
    if Abs(m) < TOP {
      assert HasForm(n, m, e);
    } else {
      var half: int := if m > 0 then TOP / 2 else 0 - TOP / 2;
      assert m == 2 * half;
      assert n == half * Pow2(e + 1);
      assert HasForm(n, half, e + 1);
    }
  }

  lemma {:induction false} FloatBelow(n: int, m: int, e: nat)
    requires HasForm(n, m, e)
    ensures IsMultiple(n, e) && Abs(n) + Pow2(e) <= TOP * Pow2(e)
  {
    assert Abs(n) == Abs(m) * Pow2(e);
    MulMonotone(Abs(m) + 1, TOP, Pow2(e));
  }

  // ---------- Rounding is to the nearest float ----------

  lemma {:induction false} GridPoint(n: nat, unit: nat) returns (k: nat)
    requires unit > 0
    ensures NearestOnGrid(n, unit) == k * unit && 2 * Abs(k * unit - n) <= unit
    ensures k == n / unit || (k == n / unit + 1 && n % unit > 0)
    ensures k * unit == n - n % unit || k * unit == n - n % unit + unit
    ensures 2 * (n % unit) < unit ==> k == n / unit
    ensures 2 * (n % unit) > unit ==> k == n / unit + 1
    ensures 2 * (n % unit) == unit ==> k % 2 == 0
  {
    var q, r := n / unit, n % unit;
    assert n == q * unit + r;
    k := if 2 * r < unit || (2 * r == unit && q % 2 == 0) then q else q + 1;
    assert (q + 1) * unit == q * unit + unit;
  }

  /** Between two neighbours on the grid, the nearer one is nearer than anything beyond them. */
  lemma {:induction false} NearerNeighbour(n: nat, lo: nat, unit: nat, g: int, f: int)
    requires lo <= n < lo + unit && (g == lo || g == lo + unit) && 2 * Abs(g - n) <= unit
    requires f <= lo || f >= lo + unit
    ensures Abs(g - n) <= Abs(f - n)
  {
  }

  lemma {:induction false} MultiplesAreSpaced(m: int, q: int, unit: nat)
    ensures m * unit <= q * unit || m * unit >= q * unit + unit
  {
    if m > q {
      MulMonotone(q + 1, m, unit);
      assert (q + 1) * unit == q * unit + unit;
    } else {
      MulMonotone(m, q, unit);
    }
  }

  lemma {:induction false} Quotient(n: nat, unit: nat) returns (q: nat, r: nat)
    requires unit > 0
    ensures q == n / unit && r == n % unit && n == q * unit + r && r < unit
  {
    q, r := n / unit, n % unit;
  }

  /** No multiple of `unit` is nearer. */
  lemma {:induction false} GridPointIsNearest(n: nat, unit: nat, m: int)
    requires unit > 0
    ensures Abs(NearestOnGrid(n, unit) - n) <= Abs(m * unit - n)
  {
    hide NearestOnGrid, Abs;
    var q, r := Quotient(n, unit);
    var k := GridPoint(n, unit);
    MultiplesAreSpaced(m, q, unit);
    NearerNeighbour(n, q * unit, unit, k * unit, m * unit);
  }

  lemma {:induction false} RoundMagnitudeIsClose(n: nat)
    ensures IsMultiple(RoundMagnitude(n), Exponent(n))
    ensures 2 * Abs(RoundMagnitude(n) - n) <= Pow2(Exponent(n))
    ensures RoundMagnitude(n) <= TOP * Pow2(Exponent(n))
  {
    hide NearestOnGrid, Pow2, Exponent;
    var unit := Pow2(Exponent(n));
    var k := GridPoint(n, unit);
    assert n == (n / unit) * unit + n % unit;
    MulCancel(n / unit, TOP, unit);
    MulMonotone(k, TOP, unit);
  }

  lemma {:induction false} RoundIsClose(n: int)
    ensures var e := Exponent(Abs(n));
            && IsMultiple(Round(n), e) && 2 * Abs(Round(n) - n) <= Pow2(e)
            && Abs(Round(n)) <= TOP * Pow2(e)
  {
    hide Exponent, RoundMagnitude, Pow2;
    RoundMagnitudeIsClose(Abs(n));
    if n < 0 {
      var m :| RoundMagnitude(-n) == m * Pow2(Exponent(-n));
      assert Round(n) == (-m) * Pow2(Exponent(-n));
    }
  }

  lemma {:induction false} RoundIsFloat(n: int)
    ensures IsFloat(Round(n))
  {
    hide Round, Exponent, IsFloat, IsMultiple, Pow2;
    RoundIsClose(n);
    SmallMultipleIsFloat(Round(n), Exponent(Abs(n)));
  }

  /** In the range of `n` and above, every float is a multiple of the last place of `n`. */
  lemma {:induction false} FloatsAreSpaced(n: nat, f: nat)
    requires IsFloat(f) && 2 * f >= TOP * Pow2(Exponent(n))
    ensures IsMultiple(f, Exponent(n))
  {
    var e := Exponent(n);
    var m: int, k: nat :| HasForm(f, m, k);
    FloatBelow(f, m, k);
    if k < e {
      Pow2Grows(k + 1, e);
      MulMonotone(Pow2(k + 1), Pow2(e), TOP);
      assert false;
    }
    MultipleOfLess(f, k, e);
  }

  lemma {:induction false} NearestMultiple(n: nat, f: nat)
    requires IsMultiple(f, Exponent(n))
    ensures Abs(RoundMagnitude(n) - n) <= Abs(f - n)
  {
    hide NearestOnGrid, Pow2, Exponent;
    var m :| f == m * Pow2(Exponent(n));
    GridPointIsNearest(n, Pow2(Exponent(n)), m);
  }

  lemma {:induction false} UnitGrid(n: int)
    ensures IsMultiple(n, 0)
  {
    OnGrid(n, n, 0);
  }

  lemma {:induction false} NearestMagnitude(n: nat, f: nat)
    requires IsFloat(f)
    ensures Abs(RoundMagnitude(n) - n) <= Abs(f - n)
  {
    hide RoundMagnitude, Exponent, IsFloat, Pow2, IsMultiple;
    var e := Exponent(n);
    if 2 * f >= TOP * Pow2(e) {
      FloatsAreSpaced(n, f);
      NearestMultiple(n, f);
    } else if e == 0 {
      UnitGrid(f);
      NearestMultiple(n, f);
    } else {
      // The bottom of the binade lies between f and n.
      var bottom := TOP / 2 * Pow2(e);
      assert 2 * bottom == TOP * Pow2(e);
      assert f <= bottom <= n;
      OnGrid(bottom, TOP / 2, e);
      NearestMultiple(n, bottom);
    }
  }

  lemma {:induction false} NegationIsFloat(f: int)
    requires IsFloat(f)
    ensures IsFloat(-f)
  {
    var m: int, e: nat :| HasForm(f, m, e);
    assert HasForm(-f, -m, e) by {
      assert -f == (-m) * Pow2(e);
    }
  }

  lemma {:induction false} ZeroIsFloat()
    ensures IsFloat(0)
  {
    assert HasForm(0, 0, 0);
  }

  /** No float is nearer to the exact value than the rounded one. */
  lemma {:induction false} RoundIsNearest(n: int, f: int)
    requires IsFloat(f)
    ensures Abs(Round(n) - n) <= Abs(f - n)
  {
    hide RoundMagnitude, IsFloat;
    NegationIsFloat(f);
    ZeroIsFloat();
    if n >= 0 && f >= 0 {
      NearestMagnitude(n, f);
    } else if n < 0 && f <= 0 {
      NearestMagnitude(-n, -f);
    } else if n >= 0 {
      NearestMagnitude(n, 0);
    } else {
      NearestMagnitude(-n, 0);
    }
  }

  /** Sums and differences are floats, and no float is nearer to the exact result. */
  lemma {:induction false} SumsAreNearest(x: int, y: int, f: int)
    requires IsFloat(f)
    ensures IsFloat(Add(x, y)) && Abs(Add(x, y) - (x + y)) <= Abs(f - (x + y))
    ensures IsFloat(Sub(x, y)) && Abs(Sub(x, y) - (x - y)) <= Abs(f - (x - y))
  {
    hide Round, IsFloat;
    RoundIsFloat(x + y);
    RoundIsFloat(x - y);
    RoundIsNearest(x + y, f);
    RoundIsNearest(x - y, f);
  }

  lemma {:induction false} RoundKeepsFloats(f: int)
    requires IsFloat(f)
    ensures Round(f) == f
  {
    RoundIsNearest(f, f);
  }

  // ---------- Fast two-sum ----------

  /** The round-off of a sum of two floats is a float. */
  lemma {:induction false} RoundOffIsFloat(x: int, y: int)
    requires IsFloat(x) && IsFloat(y)
    ensures IsFloat(x + y - Round(x + y))
  {
    hide Round, Exponent, IsMultiple, Pow2;
    var mx: int, ex: nat :| HasForm(x, mx, ex);
    var my: int, ey: nat :| HasForm(y, my, ey);
    FloatBelow(x, mx, ex);
    FloatBelow(y, my, ey);
    var low := if ex < ey then ex else ey;
    var s := x + y;
    var e := Exponent(Abs(s));
    MultipleOfLess(x, ex, low);
    MultipleOfLess(y, ey, low);
    MultiplesSubtract(x, y, low);
    if e < low {
      RoundsExactly(s, low);
      ZeroIsFloat();
    } else {
      RoundIsClose(s);
      MultipleOfLess(Round(s), e, low);
      MultiplesSubtract(s, Round(s), low);
      RoundIsNearest(s, x);
      RoundIsNearest(s, y);
      SmallMultipleIsFloat(s - Round(s), low);
    }
  }

  /** A sum whose last place lies below the common grid of its terms is exact. */
  lemma {:induction false} RoundsExactly(s: int, low: nat)
    requires IsMultiple(s, low) && Exponent(Abs(s)) <= low
    ensures IsFloat(s) && Round(s) == s
  {
    hide Round, Exponent, IsFloat, IsMultiple, Pow2;
    Pow2Grows(Exponent(Abs(s)), low);
    MulMonotone(Pow2(Exponent(Abs(s))), Pow2(low), TOP);
    SmallMultipleIsFloat(s, low);
    RoundKeepsFloats(s);
  }

  /** What is added to the larger term to reach the rounded sum is a float. */
  lemma {:induction false} StepIsFloat(x: int, y: int)
    requires IsFloat(x) && IsFloat(y) && Abs(x) >= Abs(y)
    ensures IsFloat(Round(x + y) - x)
  {
    hide Round, Exponent, IsMultiple, Pow2;
    var mx: int, ex: nat :| HasForm(x, mx, ex);
    var my: int, ey: nat :| HasForm(y, my, ey);
    var s := x + y;
    if Exponent(Abs(s)) <= ex && Exponent(Abs(s)) <= ey {
      var low := if ex < ey then ex else ey;
      FloatBelow(x, mx, ex);
      FloatBelow(y, my, ey);
      MultipleOfLess(x, ex, low);
      MultipleOfLess(y, ey, low);
      MultiplesSubtract(x, y, low);
      RoundsExactly(s, low);
    } else if Exponent(Abs(s)) <= ex {
      StepWithCoarseX(x, mx, ex, y, my, ey);
    } else {
      StepWithFineX(x, mx, ex, y);
    }
  }

  lemma {:induction false} StepWithCoarseX(x: int, mx: int, ex: nat, y: int, my: int, ey: nat)
    requires HasForm(x, mx, ex) && HasForm(y, my, ey)
    requires ey < Exponent(Abs(x + y)) <= ex
    ensures IsFloat(Round(x + y) - x)
  {
    hide Round, Exponent, IsFloat, IsMultiple, Pow2;
    var s := x + y;
    var e := Exponent(Abs(s));
    FloatBelow(x, mx, ex);
    FloatBelow(y, my, ey);
    RoundIsClose(s);
    MultipleOfLess(x, ex, e);
    MultiplesSubtract(Round(s), x, e);
    Pow2Doubles(ey);
    Pow2Grows(ey + 1, e);
    MulMonotone(Pow2(ey + 1), Pow2(e), TOP);
    MulMonotone(1, TOP, Pow2(e));
    SmallMultipleIsFloat(Round(s) - x, e);
  }

  lemma {:induction false} StepWithFineX(x: int, mx: int, ex: nat, y: int)
    requires HasForm(x, mx, ex) && Abs(x) >= Abs(y) && ex < Exponent(Abs(x + y))
    ensures IsFloat(Round(x + y) - x)
  {
    hide Round, Exponent, IsFloat, IsMultiple, Pow2;
    var s := x + y;
    var e := Exponent(Abs(s));
    FloatBelow(x, mx, ex);
    Pow2Doubles(ex);
    // |s| <= 2|x| bounds the last place of the sum by twice that of x.
    assert TOP * Pow2(e) < 4 * (TOP * Pow2(ex));
    assert Pow2(e) * TOP < Pow2(ex + 2) * TOP;
    MulCancel(Pow2(e), Pow2(ex + 2), TOP);
    Pow2Grows(ex + 2, e);
    assert e == ex + 1;
    RoundIsClose(s);
    MultipleOfLess(Round(s), e, ex);
    MultiplesSubtract(Round(s), x, ex);
    SmallMultipleIsFloat(Round(s) - x, ex);
  }

  /**
   Fast two-sum is exact: the two subtractions that recover the round-off are themselves exact, so
   the rounded sum and the recovered round-off add up to the exact sum.
   */
  lemma {:induction false} FastTwoSum(x: int, y: int)
    requires IsFloat(x) && IsFloat(y) && Abs(x) >= Abs(y)
    ensures var hi := Add(x, y); var lo := Sub(y, Sub(hi, x));
            hi + lo == x + y && IsFloat(hi) && IsFloat(lo)
  {
    hide Round, IsFloat, Abs;
    StepIsFloat(x, y);
    RoundKeepsFloats(Round(x + y) - x);
    RoundOffIsFloat(x, y);
    RoundKeepsFloats(x + y - Round(x + y));
    RoundIsFloat(x + y);
    assert y - (Round(x + y) - x) == x + y - Round(x + y);
  }
}
