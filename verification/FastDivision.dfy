/** Division by an invariant integer through multiplication and shift (Granlund and Montgomery),
    for a signed index type of w bits and its unsigned counterpart. */
module FastDivision {
  import opened Arithmetic

  function Pow2(n: nat): (r: nat)
    ensures r >= 1
  {
    if n == 0 then 1 else 2 * Pow2(n - 1)
  }

  lemma {:induction false} Pow2Add(a: nat, b: nat)
    ensures Pow2(a + b) == Pow2(a) * Pow2(b)
  {
    if a > 0 {
      Pow2Add(a - 1, b);
      assert Pow2(a + b) == 2 * Pow2(a - 1 + b);
      assert 2 * (Pow2(a - 1) * Pow2(b)) == (2 * Pow2(a - 1)) * Pow2(b);
    }
  }

  /** The value an unsigned w-bit variable holds after x is assigned to it. */
  function Wrap(w: nat, x: int): (r: nat)
    ensures r < Pow2(w)
    ensures 0 <= x < Pow2(w) ==> r == x
  {
    SmallMod(x, Pow2(w));
    x % Pow2(w)
  }

  /** The upper w bits of the 2w-bit product. */
  function MulHi(w: nat, x: nat, y: nat): nat
  {
    QuotientNonNegative(x * y, Pow2(w));
    (x * y) / Pow2(w)
  }

  /** The largest value below 2^(w-1) that leaves remainder d-1. */
  function CriticalValue(w: nat, d: nat): int
    requires w >= 1 && d > 0
  {
    Pow2(w - 1) - 1 - Pow2(w - 1) % d
  }

  /** How far 2^p is below the next multiple of d (d itself when 2^p is one). */
  function Shortfall(p: nat, d: nat): (r: nat)
    requires d > 0
    ensures 1 <= r <= d
  {
    d - Pow2(p) % d
  }

  /** 2^p is large enough for the rounding error of the magic multiple to be harmless. */
  predicate Sufficient(w: nat, d: nat, p: nat)
    requires w >= 1 && d > 0
  {
    CriticalValue(w, d) * Shortfall(p, d) < Pow2(p)
  }

  ghost predicate IsMagic(w: nat, d: nat, multiple: nat, shift: nat)
    requires w >= 1 && d > 0
  {
    && Sufficient(w, d, w + shift)
    && multiple * d == Pow2(w + shift) + Shortfall(w + shift, d)
  }

  /** The critical value is a multiple of d less one, and dominates every smaller remainder. */
  lemma CriticalValueFacts(w: nat, d: nat)
    requires w >= 3 && 1 < d < Pow2(w - 1)
    ensures d - 1 <= CriticalValue(w, d) < Pow2(w - 1)
    ensures Pow2(w - 1) <= 2 * CriticalValue(w, d) + 1
    ensures exists t :: CriticalValue(w, d) + 1 == t * d
  {
    var x := Pow2(w - 1);
    var t := x / d;
    assert x == t * d + x % d;
    assert CriticalValue(w, d) + 1 == t * d;
    assert t >= 1 by { if t <= 0 { MulMono(t, 0, d); } }
    MulMono(1, t, d);
  }

  /** Theorem: with magic numbers, multiply-high and shift is exact division for every
      non-negative value of the signed type. */
  lemma MagicIsExact(w: nat, d: nat, multiple: nat, shift: nat, n: nat)
    requires w >= 3 && 1 < d < Pow2(w - 1)
    requires IsMagic(w, d, multiple, shift)
    requires n < Pow2(w - 1)
    ensures MulHi(w, n, multiple) / Pow2(shift) == n / d
  {
    MulMono(0, n, multiple);
    RoundingErrorHarmless(w, d, w + shift, n);
    ExactQuotient(n, multiple, d, Pow2(w + shift), Shortfall(w + shift, d));
    TwoShifts(n * multiple, w, shift);
  }

  lemma TwoShifts(x: nat, a: nat, b: nat)
    ensures (x / Pow2(a)) / Pow2(b) == x / Pow2(a + b)
  {
    Pow2Add(a, b);
    DivDiv(x, Pow2(a), Pow2(b));
  }

  /** a*two <= n*m < (a+1)*two, obtained by scaling both sides by d. */
  lemma ScaledBounds(a: int, b: int, d: int, n: int, m: int, two: int, delta: int)
    requires n == a * d + b && 0 <= b < d && n >= 0
    requires m * d == two + delta
    requires delta >= 0 && two > 0
    requires n * delta < (d - b) * two
    ensures a * two <= n * m < (a + 1) * two
  {
  }

  lemma ExactQuotient(n: nat, m: nat, d: nat, two: nat, delta: nat)
    requires d > 0 && two > 0
    requires m * d == two + delta
    requires n * delta < (d - n % d) * two
    ensures (n * m) / two == n / d
  {
    ScaledBounds(n / d, n % d, d, n, m, two, delta);
    DivUnique(n * m, two, n / d);
  }

  /** The rounding error n*delta never carries n into the next quotient. */
  lemma RoundingErrorHarmless(w: nat, d: nat, p: nat, n: nat)
    requires w >= 3 && 1 < d < Pow2(w - 1)
    requires Sufficient(w, d, p)
    requires n < Pow2(w - 1)
    ensures n * Shortfall(p, d) < (d - n % d) * Pow2(p)
  {
    var nc := CriticalValue(w, d);
    CriticalValueFacts(w, d);
    if n <= nc {
      ErrorUpToCritical(n, nc, d, n % d, Shortfall(p, d), Pow2(p));
    } else {
      var t :| nc + 1 == t * d;
      DivModOfSum(t, d, n - nc - 1);
      ErrorBeyondCritical(n, nc, d, n % d, Shortfall(p, d), Pow2(p));
    }
  }

  lemma ErrorUpToCritical(n: int, nc: int, d: int, b: int, delta: int, two: int)
    requires n <= nc && b < d && delta >= 0 && nc * delta < two
    requires 0 <= two
    ensures n * delta < (d - b) * two
  {
    MulMono(n, nc, delta);
    MulMono(1, d - b, two);
  }

  lemma ErrorBeyondCritical(n: int, nc: int, d: int, b: int, delta: int, two: int)
    requires n == nc + 1 + b && b + 1 < d && b + 1 <= nc && delta >= 0 && nc * delta < two
    requires 0 <= two
    ensures n * delta < (d - b) * two
  {
    MulDist(delta, nc, b + 1);
    MulMono(b + 1, nc, delta);
    MulMono(2, d - b, two);
  }

  /** The search cannot run past 2(w-1). */
  lemma SufficientAtTwiceDigits(w: nat, d: nat)
    requires w >= 3 && 1 < d < Pow2(w - 1)
    ensures Sufficient(w, d, 2 * (w - 1))
  {
    Pow2Add(w - 1, w - 1);
    CriticalValueFacts(w, d);
    BelowSquare(CriticalValue(w, d), Shortfall(2 * (w - 1), d), Pow2(w - 1));
  }

  /** The loop's continuation test on quotient and remainder is the test on exact integers. */
  lemma ContinuationTest(w: nat, d: nat, p: nat, quot: nat, rem: nat)
    requires w >= 1 && d > 0 && CriticalValue(w, d) > 0
    requires IsDivision(p, CriticalValue(w, d), quot, rem)
    ensures (quot < Shortfall(p, d) || (quot == Shortfall(p, d) && rem == 0)) <==> !Sufficient(w, d, p)
  {
    QuotientTest(Pow2(p), CriticalValue(w, d), Shortfall(p, d));
  }

  lemma QuotientTest(two: nat, nc: nat, delta: nat)
    requires nc > 0
    ensures (two / nc < delta || (two / nc == delta && two % nc == 0)) <==> two <= nc * delta
  {
    var q, r := two / nc, two % nc;
    assert two == q * nc + r;
    if q < delta {
      MulMono(q + 1, delta, nc);
      MulDist(nc, q, 1);
    } else {
      MulMono(delta, q, nc);
      if q > delta {
        MulMono(delta + 1, q, nc);
        MulDist(nc, delta, 1);
      }
    }
  }

  /** quot and rem are the exact quotient and remainder of 2^p by div. */
  predicate IsDivision(p: nat, div: nat, quot: nat, rem: nat)
    requires div > 0
  {
    quot == Pow2(p) / div && rem == Pow2(p) % div
  }

  /** Doubles the dividend of an exact quotient and remainder. No unsigned value wraps. */
  method IncreaseTwoPowerByOne(w: nat, ghost p: nat, div: nat, quot: nat, rem: nat) returns (quot': nat, rem': nat)
    requires div > 0 && 2 * div <= Pow2(w)
    requires IsDivision(p, div, quot, rem)
    requires 2 * quot + 1 < Pow2(w)
    ensures IsDivision(p + 1, div, quot', rem')
  {
    quot' := Wrap(w, quot * 2);
    rem' := Wrap(w, rem * 2);
    assert quot' == 2 * quot && rem' == 2 * rem;
    DoubledDivision(Pow2(p), div);
    if rem' >= div {
      quot' := Wrap(w, quot' + 1);
      rem' := Wrap(w, rem' - div);
    }
  }

  /** Before another doubling, both quotients leave room for it in w unsigned bits. */
  lemma RoomToDouble(w: nat, d: nat, p: nat, quotNc: nat, remNc: nat, quotD: nat, remD: nat)
    requires w >= 3 && 1 < d < Pow2(w - 1) && CriticalValue(w, d) > 0
    requires w - 1 <= p <= 2 * (w - 1)
    requires p == w - 1 || !Sufficient(w, d, p)
    requires IsDivision(p, CriticalValue(w, d), quotNc, remNc)
    requires IsDivision(p, d, quotD, remD)
    ensures p < 2 * (w - 1)
    ensures 2 * quotNc + 1 < Pow2(w)
    ensures 2 * quotD + 1 < Pow2(w)
    ensures Pow2(p + 1) / d + 1 < Pow2(w)
  {
    SufficientAtTwiceDigits(w, d);
    SearchStart(w, d);
    if p > w - 1 {
      QuotientsWhileInsufficient(Pow2(p), CriticalValue(w, d), Shortfall(p, d), d);
    } else {
      HalfQuotient(Pow2(w - 1), d);
    }
  }

  lemma QuotientsWhileInsufficient(two: nat, nc: nat, delta: nat, d: nat)
    requires nc > 0 && d > 0 && delta <= d && two <= nc * delta
    ensures two / nc <= d && two / d <= nc && (2 * two) / d <= 2 * nc
  {
    MulAssoc(2, nc, d);
    QuotientAtMost(2 * two, d, 2 * nc);
    MulMono(delta, d, nc);
    QuotientAtMost(two, nc, d);
    QuotientAtMost(two, d, nc);
  }

  lemma SearchStart(w: nat, d: nat)
    requires w >= 3 && 1 < d < Pow2(w - 1)
    ensures 0 < CriticalValue(w, d) < Pow2(w - 1)
    ensures 8 <= Pow2(w) == 2 * Pow2(w - 1)
    ensures Pow2(w - 1) / CriticalValue(w, d) <= 3
    ensures 2 * (Pow2(w - 1) / d) <= Pow2(w - 1)
  {
    CriticalValueFacts(w, d);
    assert Pow2(w - 1) == 2 * Pow2(w - 2) && Pow2(w - 2) == 2 * Pow2(w - 3);
    QuotientAtMost(Pow2(w - 1), CriticalValue(w, d), 3);
    HalfQuotient(Pow2(w - 2), d);
  }

  lemma FoundMultiple(p: nat, d: nat, quot: nat, rem: nat)
    requires d > 0 && IsDivision(p, d, quot, rem)
    ensures (quot + 1) * d == Pow2(p) + Shortfall(p, d)
  {
    NextMultiple(Pow2(p), d);
  }

  /** Divisors must exceed one: no w-bit multiple and shift divide even one positive value by one. */
  lemma NoMultipleForDivisorOne(w: nat, multiple: nat, shift: nat, n: nat)
    requires multiple < Pow2(w) && n > 0
    ensures MulHi(w, n, multiple) / Pow2(shift) < n
  {
    MulDist(n, Pow2(w) - multiple, multiple);
    MulMono(1, Pow2(w) - multiple, n);
    QuotientBelow(n * multiple, Pow2(w), n);
    QuotientShrinks(MulHi(w, n, multiple), Pow2(shift));
  }

  class FastDiv {
    const w: nat
    var multiple: nat
    var shift: nat

    ghost predicate Divides(divisor: nat)
      reads this
    {
      && w >= 3
      && 1 < divisor < Pow2(w - 1)
      && multiple < Pow2(w)
      && shift < w
      && IsMagic(w, divisor, multiple, shift)
    }

    /** Finds the magic numbers for a divisor. The power found is the least one that suffices. */
    constructor (bits: nat, divisor: nat)
      requires bits >= 3 && 1 < divisor < Pow2(bits - 1)
      ensures w == bits && Divides(divisor)
      ensures multiple < Pow2(bits) && shift < bits && bits + shift <= 2 * (bits - 1)
      ensures forall p :: bits <= p < bits + shift ==> !Sufficient(bits, divisor, p)
    {
      var twoPow := Pow2(bits - 1);
      var nc := Wrap(bits, twoPow - 1 - twoPow % divisor);
      SearchStart(bits, divisor);

      var power := bits - 1;
      var quotNc: nat, remNc: nat := twoPow / nc, twoPow % nc;
      var quotD: nat, remD: nat := twoPow / divisor, twoPow % divisor;
      var searching := true;
      while searching
        invariant bits - 1 <= power <= 2 * (bits - 1)
        invariant IsDivision(power, nc, quotNc, remNc)
        invariant IsDivision(power, divisor, quotD, remD)
        invariant quotD + 1 < Pow2(bits)
        invariant searching <==> power == bits - 1 || !Sufficient(bits, divisor, power)
        invariant forall p :: bits <= p < power ==> !Sufficient(bits, divisor, p)
        decreases 2 * (bits - 1) - power
      {
        RoomToDouble(bits, divisor, power, quotNc, remNc, quotD, remD);
        quotNc, remNc := IncreaseTwoPowerByOne(bits, power, nc, quotNc, remNc);
        quotD, remD := IncreaseTwoPowerByOne(bits, power, divisor, quotD, remD);
        power := power + 1;
        var delta := Wrap(bits, divisor - remD);
        ContinuationTest(bits, divisor, power, quotNc, remNc);
        searching := quotNc < delta || (quotNc == delta && remNc == 0);
      }
      FoundMultiple(power, divisor, quotD, remD);
      w := bits;
      multiple := Wrap(bits, quotD + 1);
      shift := power - (bits - 1) - 1;
    }

    /** Division of a non-negative value of the signed type. */
    method Divide(value: nat, ghost divisor: nat) returns (r: nat)
      requires Divides(divisor) && value < Pow2(w - 1)
      ensures r == value / divisor
    {
      MagicIsExact(w, divisor, multiple, shift, value);
      QuotientShrinks(value, divisor);
      r := MulHi(w, value, multiple) / Pow2(shift);
    }
  }
}
