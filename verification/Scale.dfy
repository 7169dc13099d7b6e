/** The axis of grid: ScaleRenderer's choice of a power of ten and the ticks it draws.
    Division is Python 3's true division, % its floor modulus. */
module Scale {
  import opened Basics

  // ---------------------------------------------------------------- arithmetic

  /** Python 3's true division. */
  function Div(x: real, y: real): real
    requires y != 0.0
  {
    x / y
  }

  lemma DivExact(x: real, y: real)
    requires y > 0.0
    ensures Div(x, y) == 0.0 <==> x == 0.0
    ensures Div(x, y) == 1.0 <==> x == y
  {
    var q := Div(x, y);
    assert Mul(q, y) == x;
    if q > 1.0 {
      MulStrict(1.0, q, y);
    } else if q < 1.0 {
      MulStrict(q, 1.0, y);
    }
    if q > 0.0 {
      MulStrict(0.0, q, y);
    } else if q < 0.0 {
      MulStrict(q, 0.0, y);
    }
  }

  lemma Scaled(a: real, w: real, b: real)
    requires b != 0.0
    ensures Mul(Div(Mul(a, w), b), b) == Mul(a, w)
    ensures a == b ==> Div(Mul(a, w), b) == w
    ensures 0.0 < a <= b && w > 0.0 ==> 0.0 < Div(Mul(a, w), b) <= w
  {
    var r := Div(Mul(a, w), b);
    assert Mul(r, b) == Mul(a, w);
    if 0.0 < a < b && w > 0.0 {
      MulPositive(a, w);
      MulStrict(a, b, w);
      if r <= 0.0 {
        MulOrder(r, 0.0, b);
      } else if r > w {
        MulStrict(w, r, b);
      }
    }
  }

  /** How many steps of d there are below x. */
  function Steps(x: real, d: real): int
    requires d > 0.0
  {
    (x / d).Floor
  }

  function Modulo(x: real, d: real): real
    requires d > 0.0
  {
    x - Mul(Steps(x, d) as real, d)
  }

  lemma StepsAround(x: real, d: real)
    requires d > 0.0
    ensures Mul(Steps(x, d) as real, d) <= x < Mul((Steps(x, d) + 1) as real, d)
  {
    var y := x / d;
    assert Mul(y, d) == x;
    MulOrder(Steps(x, d) as real, y, d);
    MulStrict(y, (Steps(x, d) + 1) as real, d);
  }

  /** int() of a float. */
  function Trunc(x: real): int {
    if x >= 0.0 then x.Floor else -((-x).Floor)
  }

  lemma TruncOfInt(n: int)
    ensures Trunc(n as real) == n
  {
  }

  // ---------------------------------------------------------------- ticks

  function Times(m: int, c: nat): int { m * c }

  ghost predicate IsMultiple(x: int, c: nat) {
    exists m: int :: Times(m, c) == x
  }

  /** Python's range with a positive step. */
  function Range(a: int, b: int, step: nat): seq<int>
    requires step > 0
    decreases b - a
  {
    if a >= b then [] else [a] + Range(a + step, b, step)
  }

  /** The multiples of c from p * c to q * c. */
  function Multiples(p: int, q: int, c: nat): (s: seq<int>)
    ensures |s| == if p <= q then q - p + 1 else 0
    ensures forall i | 0 <= i < |s| :: s[i] == Times(p + i, c)
    decreases q - p
  {
    if p > q then [] else [Times(p, c)] + Multiples(p + 1, q, c)
  }

  lemma TimesSum(m: int, n: int, c: nat)
    ensures Times(m + n, c) == Times(m, c) + Times(n, c)
  {
  }

  lemma TimesOrder(p: int, q: int, c: nat)
    requires c > 0
    ensures p < q <==> Times(p, c) < Times(q, c)
  {
  }

  lemma {:induction false} RangeIsMultiples(p: int, q: int, c: nat)
    requires c > 0
    ensures Range(Times(p, c), Times(q + 1, c), c) == Multiples(p, q, c)
    decreases q - p
  {
    TimesOrder(p, q + 1, c);
    if p <= q {
      assert Times(p + 1, c) == Times(p, c) + c;
      RangeIsMultiples(p + 1, q, c);
    }
  }

  /** Exactly the multiples of c above lo and up to hi, one after the other. */
  ghost predicate AreTicks(ts: seq<int>, lo: real, hi: real, c: nat) {
    && (forall x: int :: x in ts <==> IsMultiple(x, c) && lo < x as real <= hi)
    && (forall i | 0 <= i < |ts| - 1 :: ts[i + 1] == ts[i] + c)
  }

  lemma TimesAsReal(m: int, c: nat)
    ensures Mul(m as real, c as real) == Times(m, c) as real
  {
  }

  /** p * c is the first multiple above lo and q * c the last one up to hi. */
  ghost predicate Frames(p: int, q: int, lo: real, hi: real, c: nat) {
    && Times(p - 1, c) as real <= lo < Times(p, c) as real
    && Times(q, c) as real <= hi < Times(q + 1, c) as real
  }

  lemma InFrame(p: int, q: int, lo: real, hi: real, c: nat, m: int)
    requires c > 0 && Frames(p, q, lo, hi, c)
    ensures lo < Times(m, c) as real <= hi <==> p <= m <= q
  {
    TimesOrder(m, p, c);
    TimesOrder(p - 1, m, c);
    TimesOrder(q, m, c);
    TimesOrder(m, q + 1, c);
  }

  lemma MultiplesAreTicks(p: int, q: int, lo: real, hi: real, c: nat)
    requires c > 0 && Frames(p, q, lo, hi, c)
    ensures AreTicks(Multiples(p, q, c), lo, hi, c)
  {
    var ts := Multiples(p, q, c);
    forall i | 0 <= i < |ts| ensures IsMultiple(ts[i], c) && lo < ts[i] as real <= hi {
      assert ts[i] == Times(p + i, c);
      InFrame(p, q, lo, hi, c, p + i);
    }
    forall x: int | IsMultiple(x, c) && lo < x as real <= hi ensures x in ts {
      var m :| Times(m, c) == x;
      InFrame(p, q, lo, hi, c, m);
      assert ts[m - p] == x;
    }
    forall i | 0 <= i < |ts| - 1 ensures ts[i + 1] == ts[i] + c {
      TimesSum(p + i, 1, c);
    }
  }

  lemma FrameLength(p: int, q: int, lo: real, hi: real, c: nat, n: nat)
    requires c > 0 && Frames(p, q, lo, hi, c) && hi - lo <= Times(n, c) as real
    ensures q - p + 1 <= n
  {
  }

  lemma StepsFrame(lo: real, hi: real, c: nat)
    requires c > 0
    ensures Frames(Steps(lo, c as real) + 1, Steps(hi, c as real), lo, hi, c)
  {
    StepsAround(lo, c as real);
    StepsAround(hi, c as real);
    TimesAsReal(Steps(lo, c as real), c);
    TimesAsReal(Steps(lo, c as real) + 1, c);
    TimesAsReal(Steps(hi, c as real), c);
    TimesAsReal(Steps(hi, c as real) + 1, c);
  }

  /** The ticks at a distance of delta, or none at all when int(delta) is 0 and
      range refuses it. */
  datatype Outcome<T> = Drawn(value: T) | ValueError

  method TicksAt(lo: real, hi: real, delta: real, ghost c: nat, ghost n: nat) returns (o: Outcome<seq<int>>)
    requires delta > 0.0
    ensures o.ValueError? <==> delta < 1.0
    ensures c > 0 && delta == c as real && hi - lo <= Times(n, c) as real ==>
              o.Drawn? && AreTicks(o.value, lo, hi, c) && |o.value| <= n
  {
    var start := lo - Modulo(lo, delta) + delta;
    var end := hi - Modulo(hi, delta);
    if Trunc(delta) == 0 {
      return ValueError;
    }
    o := Drawn(Range(Trunc(start), Trunc(end + delta), Trunc(delta)));
    if c > 0 && delta == c as real && hi - lo <= Times(n, c) as real {
      TicksAreExact(lo, hi, c, start, end, n);
    }
  }

  lemma TicksAreExact(lo: real, hi: real, c: nat, start: real, end: real, n: nat)
    requires c > 0
    requires start == lo - Modulo(lo, c as real) + c as real && end == hi - Modulo(hi, c as real)
    requires hi - lo <= Times(n, c) as real
    ensures Trunc(c as real) == c
    ensures AreTicks(Range(Trunc(start), Trunc(end + c as real), c), lo, hi, c)
    ensures |Range(Trunc(start), Trunc(end + c as real), c)| <= n
  {
    var p, q := Steps(lo, c as real) + 1, Steps(hi, c as real);
    StartAndEnd(lo, hi, c, start, end, p, q);
    TruncOfInt(Times(p, c));
    TruncOfInt(Times(q + 1, c));
    TruncOfInt(c);
    RangeIsMultiples(p, q, c);
    StepsFrame(lo, hi, c);
    MultiplesAreTicks(p, q, lo, hi, c);
    FrameLength(p, q, lo, hi, c, n);
  }

  lemma StartAndEnd(lo: real, hi: real, c: nat, start: real, end: real, p: int, q: int)
    requires c > 0 && p == Steps(lo, c as real) + 1 && q == Steps(hi, c as real)
    requires start == lo - Modulo(lo, c as real) + c as real && end == hi - Modulo(hi, c as real)
    ensures start == Times(p, c) as real && end + c as real == Times(q + 1, c) as real
  {
  }

  // ---------------------------------------------------------------- the power of ten

  predicate IsPowerOfTen(c: nat) {
    c == 1 || (c > 0 && c % 10 == 0 && IsPowerOfTen(c / 10))
  }

  /** The scale of an axis that spans `extent`. */
  function Closest(extent: real, c: nat): nat
    requires c > 0
    decreases extent.Floor - c
  {
    if (c * 10) as real < extent then Closest(extent, c * 10) else c
  }

  /** A power of ten whose tenfold reaches the extent; more than 1 only if the extent
      exceeds it, and 1 exactly for extents up to 10. */
  lemma {:induction false} ClosestIsScale(extent: real, c: nat)
    requires IsPowerOfTen(c) && (c > 1 ==> c as real < extent)
    ensures IsPowerOfTen(Closest(extent, c))
    ensures extent <= (10 * Closest(extent, c)) as real
    ensures Closest(extent, c) > 1 ==> Closest(extent, c) as real < extent
    ensures Closest(extent, c) >= c
    ensures Closest(extent, c) > c ==> (c * 10) as real < extent
    decreases extent.Floor - c
  {
    if (c * 10) as real < extent {
      ClosestIsScale(extent, c * 10);
    }
  }

  method FindClosest(extent: real) returns (closest: nat)
    ensures closest > 0 && closest == Closest(extent, 1)
  {
    closest := 1;
    while (closest * 10) as real < extent
      invariant closest > 0 && Closest(extent, 1) == Closest(extent, closest)
      decreases extent.Floor - closest
    {
      closest := closest * 10;
    }
  }

  function DeltaOf(extent: real): real {
    if extent == 1.0 then 0.1 else Closest(extent, 1) as real
  }

  lemma MultipleOfTenth(x: int, c: nat)
    requires c % 10 == 0 && IsMultiple(x, c)
    ensures IsMultiple(x, c / 10)
  {
    var m :| Times(m, c) == x;
    assert Times(10 * m, c / 10) == x;
  }

  class ScaleRenderer {
    var lo: real
    var hi: real
    var delta: real
    var width: real

    method SetBounds(lo: real, hi: real)
      modifies this`lo, this`hi
      ensures this.lo == lo && this.hi == hi
    {
      this.lo, this.hi := lo, hi;
    }

    method Layout(width: real)
      modifies this`delta, this`width
      ensures delta == DeltaOf(hi - lo) && this.width == width
    {
      var dataDelta := hi - lo;
      var closest := FindClosest(dataDelta);
      ClosestIsScale(dataDelta, 1);
      DivExact(dataDelta, closest as real);
      if Div(dataDelta, closest as real) == 0.0 {
        delta := closest as real;
      } else if Div(dataDelta, closest as real) == 1.0 {
        delta := closest as real / 10.0;
      } else {
        delta := closest as real;
      }
      this.width := width;
    }

    /** Drawing fails exactly on axes that span at most 10, where the distance of the
        minor ticks truncates to zero. Otherwise the major ticks are exactly the
        multiples of delta above lo and up to hi, at most ten of them, the minor ticks
        those of a tenth of it, and every major tick is also a minor one. */
    method Draw() returns (o: Outcome<(seq<int>, seq<int>)>)
      requires delta == DeltaOf(hi - lo)
      ensures o.ValueError? <==> hi - lo <= 10.0
      ensures o.Drawn? ==>
                var c := Closest(hi - lo, 1);
                && delta == c as real && IsPowerOfTen(c) && c >= 10
                && AreTicks(o.value.0, lo, hi, c) && |o.value.0| <= 10
                && AreTicks(o.value.1, lo, hi, c / 10) && |o.value.1| <= 100
                && (forall x | x in o.value.0 :: x in o.value.1)
    {
      ghost var c := Closest(hi - lo, 1);
      ClosestIsScale(hi - lo, 1);
      assert Times(10, c) == 10 * c;
      var major := TicksAt(lo, hi, delta, c, 10);
      if major.ValueError? {
        return ValueError;
      }
      assert c % 10 == 0 ==> Times(100, c / 10) == 10 * c && (c / 10) as real == c as real / 10.0;
      var minor := TicksAt(lo, hi, delta / 10.0, c / 10, 100);
      if minor.ValueError? {
        return ValueError;
      }
      o := Drawn((major.value, minor.value));
      forall x | x in major.value ensures x in minor.value {
        MultipleOfTenth(x, c);
      }
    }

    /** Where a value is drawn: in proportion to its distance from lo, so that ticks land
        on the surface. */
    method GetPosition(x: real) returns (position: real)
      requires hi != lo
      ensures position * (hi - lo) == (x - lo) * width
      ensures lo < x <= hi && width > 0.0 ==> 0.0 < position <= width
      ensures x == hi ==> position == width
    {
      position := Div(Mul(x - lo, width), hi - lo);
      Scaled(x - lo, width, hi - lo);
      assert Mul(position, hi - lo) == Mul(x - lo, width);
    }
  }
}
