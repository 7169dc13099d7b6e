/** `BenchSuite::Log`: Welford's online mean and second moment, over the reals. */
module Welford {
  import opened Basics

  datatype Phase = Phase(time: real, rate: real, period: real)

  datatype Result = Result(init: Phase, run: Phase)

  datatype Field = InitTime | InitRate | InitPeriod | RunTime | RunRate | RunPeriod

  function Pick(r: Result, f: Field): real {
    match f
    case InitTime => r.init.time
    case InitRate => r.init.rate
    case InitPeriod => r.init.period
    case RunTime => r.run.time
    case RunRate => r.run.rate
    case RunPeriod => r.run.period
  }

  /** The six fields are all there is to a result. */
  lemma FieldsDetermine(r: Result, q: Result)
    requires forall f: Field :: Pick(r, f) == Pick(q, f)
    ensures r == q
  {
    assert forall f: Field :: Pick(r, f) == Pick(q, f);
    assert Pick(r, InitTime) == Pick(q, InitTime) && Pick(r, InitRate) == Pick(q, InitRate);
    assert Pick(r, InitPeriod) == Pick(q, InitPeriod) && Pick(r, RunTime) == Pick(q, RunTime);
    assert Pick(r, RunRate) == Pick(q, RunRate) && Pick(r, RunPeriod) == Pick(q, RunPeriod);
  }

  function Column(rs: seq<Result>, f: Field): seq<real> {
    if rs == [] then [] else Column(rs[..|rs| - 1], f) + [Pick(rs[|rs| - 1], f)]
  }

  // ---------------------------------------------------------------- the two-pass statistics

  function SumOf(f: real -> real, xs: seq<real>): real {
    if xs == [] then 0.0 else SumOf(f, xs[..|xs| - 1]) + f(xs[|xs| - 1])
  }

  function Identity(): real -> real { (x: real) => x }

  function Total(xs: seq<real>): real { SumOf(Identity(), xs) }

  function Square(d: real): real { Mul(d, d) }

  function SquareFrom(a: real): real -> real { (x: real) => Square(x - a) }

  /** Sum of squared distances from `a`. */
  function Deviations(xs: seq<real>, a: real): real { SumOf(SquareFrom(a), xs) }

  lemma SumOfPush(f: real -> real, xs: seq<real>, x: real)
    ensures SumOf(f, xs + [x]) == SumOf(f, xs) + f(x)
  {
  }

  lemma {:induction false} SumOfNonNegative(f: real -> real, xs: seq<real>)
    requires forall x :: f(x) >= 0.0
    ensures SumOf(f, xs) >= 0.0
    ensures SumOf(f, xs) == 0.0 ==> forall i | 0 <= i < |xs| :: f(xs[i]) == 0.0
    ensures (forall i | 0 <= i < |xs| :: f(xs[i]) == 0.0) ==> SumOf(f, xs) == 0.0
  {
    if xs != [] {
      SumOfNonNegative(f, xs[..|xs| - 1]);
    }
  }

  lemma SquareSign(d: real)
    ensures d == 0.0 ==> Square(d) == 0.0
    ensures d != 0.0 ==> Square(d) > 0.0
  {
    if d > 0.0 {
      MulPositive(d, d);
    } else if d < 0.0 {
      MulNegatives(d, d);
    }
  }

  lemma SquareExpand(y: real, a: real)
    ensures Square(y - a) == Square(y - 0.0) - (2.0 * a) * y + a * a
  {
  }

  lemma DeviationsNonNegative(xs: seq<real>, a: real)
    ensures Deviations(xs, a) >= 0.0
    ensures Deviations(xs, a) == 0.0 ==> forall i | 0 <= i < |xs| :: xs[i] == a
    ensures (forall i | 0 <= i < |xs| :: xs[i] == a) ==> Deviations(xs, a) == 0.0
  {
    var f := SquareFrom(a);
    forall x ensures f(x) >= 0.0 && (x != a ==> f(x) > 0.0) && (x == a ==> f(x) == 0.0) {
      SquareSign(x - a);
    }
    SumOfNonNegative(f, xs);
  }

  /** If g is f with a term linear in the sample and a constant added, the sums
      differ accordingly. */
  lemma {:induction false} SumOfShifted(f: real -> real, g: real -> real, xs: seq<real>, b: real, c: real)
    requires forall y :: g(y) == f(y) - b * y + c
    ensures SumOf(g, xs) == SumOf(f, xs) - b * Total(xs) + |xs| as real * c
  {
    if xs != [] {
      var front, x := xs[..|xs| - 1], xs[|xs| - 1];
      SumOfShifted(f, g, front, b, c);
      assert |xs| as real * c == |front| as real * c + c;
      assert b * (Total(front) + x) == b * Total(front) + b * x;
    }
  }

  lemma SquareShift(a: real)
    ensures forall y :: SquareFrom(a)(y) == SquareFrom(0.0)(y) - (2.0 * a) * y + a * a
  {
    forall y ensures SquareFrom(a)(y) == SquareFrom(0.0)(y) - (2.0 * a) * y + a * a {
      SquareExpand(y, a);
    }
  }

  /** The squared distances from the mean, by way of the plain squares. */
  lemma DeviationsFromMean(xs: seq<real>, a: real)
    requires |xs| as real * a == Total(xs)
    ensures Deviations(xs, a) == Deviations(xs, 0.0) - a * Total(xs)
  {
    SquareShift(a);
    SumOfShifted(SquareFrom(0.0), SquareFrom(a), xs, 2.0 * a, a * a);
    assert |xs| as real * (a * a) == (|xs| as real * a) * a;
  }

  // ---------------------------------------------------------------- one update

  function Accumulate(x: real, average: real, moment2: real, count: nat): (r: (real, real))
    requires count > 0
  {
    var deltaPre := x - average;
    var newAverage := average + deltaPre / count as real;
    var deltaPost := x - newAverage;
    (newAverage, moment2 + deltaPre * deltaPost)
  }

  /** `average` and `moment2` are the mean of the samples and their total squares
      less the mean's share. With no samples any average will do, which is why
      the seed of the loop does not matter. */
  ghost predicate Tracks(xs: seq<real>, average: real, moment2: real) {
    |xs| as real * average == Total(xs) && moment2 == Deviations(xs, 0.0) - average * Total(xs)
  }

  lemma AccumulateValue(x: real, average: real, moment2: real, count: nat, d: real, e: real)
    requires count > 0 && d == x - average && e == d / count as real
    ensures Accumulate(x, average, moment2, count).0 == average + e
    ensures Accumulate(x, average, moment2, count).1 == moment2 + d * (d - e)
  {
  }

  /** The algebra of ACCUMULATE: e is the change of the average, d is deltaPre
      and d - e is deltaPost; t and q are the total and the squares so far. */
  lemma UpdateAlgebra(n: real, m: real, a: real, t: real, q: real, x: real, d: real, e: real)
    requires n * a == t && m == n + 1.0 && m * e == d && d == x - a
    ensures m * (a + e) == t + x
    ensures q - a * t + d * (d - e) == q + x * x - (a + e) * (t + x)
  {
  }

  lemma AccumulateTracks(xs: seq<real>, x: real, average: real, moment2: real)
    requires Tracks(xs, average, moment2)
    ensures Tracks(xs + [x], Accumulate(x, average, moment2, |xs| + 1).0, Accumulate(x, average, moment2, |xs| + 1).1)
  {
    var n, m, d := |xs| as real, (|xs| + 1) as real, x - average;
    var e := Quotient(d, m);
    AccumulateValue(x, average, moment2, |xs| + 1, d, e);
    SumOfPush(Identity(), xs, x);
    SumOfPush(SquareFrom(0.0), xs, x);
    assert SquareFrom(0.0)(x) == x * x by { assert Square(x - 0.0) == x * x; }
    UpdateAlgebra(n, m, average, Total(xs), Deviations(xs, 0.0), x, d, e);
  }

  lemma MeanIsQuotient(n: real, a: real, t: real)
    requires n > 0.0 && n * a == t
    ensures a == t / n
  {
  }

  /** What Tracks means for a non-empty sample: the two-pass mean and the sum of
      squared deviations from it, never negative, zero only for equal samples. */
  lemma TracksIsTwoPass(xs: seq<real>, average: real, moment2: real)
    requires xs != [] && Tracks(xs, average, moment2)
    ensures average == Total(xs) / |xs| as real
    ensures moment2 == Deviations(xs, Total(xs) / |xs| as real) >= 0.0
    ensures moment2 == 0.0 <==> forall i, j | 0 <= i < |xs| && 0 <= j < |xs| :: xs[i] == xs[j]
  {
    MeanIsQuotient(|xs| as real, average, Total(xs));
    DeviationsFromMean(xs, average);
    DeviationsNonNegative(xs, average);
    if forall i, j | 0 <= i < |xs| && 0 <= j < |xs| :: xs[i] == xs[j] {
      AllEqualTotal(xs, xs[0]);
      MeanIsQuotient(|xs| as real, xs[0], Total(xs));
    }
  }

  lemma {:induction false} AllEqualTotal(xs: seq<real>, x: real)
    requires forall i | 0 <= i < |xs| :: xs[i] == x
    ensures Total(xs) == |xs| as real * x
  {
    if xs != [] {
      AllEqualTotal(xs[..|xs| - 1], x);
      assert |xs| as real * x == (|xs| - 1) as real * x + x;
    }
  }

  // ---------------------------------------------------------------- the loop

  class BenchSuite {
    var results: seq<Result>

    /** The averages and second moments that Log prints; false when it prints
        nothing because there are fewer than two results. */
    method Log() returns (printed: bool, average: Result, moment2: Result)
      ensures printed <==> |results| >= 2
      ensures printed ==> forall f: Field ::
                var xs := Column(results, f);
                Pick(average, f) == Total(xs) / |results| as real &&
                Pick(moment2, f) == Deviations(xs, Total(xs) / |results| as real) >= 0.0
    {
      var zero := Result(Phase(0.0, 0.0, 0.0), Phase(0.0, 0.0, 0.0));
      if |results| < 2 {
        return false, zero, zero;
      }
      average, moment2 := results[0], zero;
      for n := 0 to |results|
        invariant forall f: Field :: Tracks(Column(results[..n], f), Pick(average, f), Pick(moment2, f))
      {
        var run, count := results[n], n + 1;
        var a, m := average, moment2;
        var (iTime, iTime2) := Accumulate(run.init.time, a.init.time, m.init.time, count);
        var (iRate, iRate2) := Accumulate(run.init.rate, a.init.rate, m.init.rate, count);
        var (iPeriod, iPeriod2) := Accumulate(run.init.period, a.init.period, m.init.period, count);
        var (rTime, rTime2) := Accumulate(run.run.time, a.run.time, m.run.time, count);
        var (rRate, rRate2) := Accumulate(run.run.rate, a.run.rate, m.run.rate, count);
        var (rPeriod, rPeriod2) := Accumulate(run.run.period, a.run.period, m.run.period, count);
        average := Result(Phase(iTime, iRate, iPeriod), Phase(rTime, rRate, rPeriod));
        moment2 := Result(Phase(iTime2, iRate2, iPeriod2), Phase(rTime2, rRate2, rPeriod2));
        forall f: Field ensures Tracks(Column(results[..n + 1], f), Pick(average, f), Pick(moment2, f)) {
          ColumnPush(results, n, f);
          AccumulateTracks(Column(results[..n], f), Pick(run, f), Pick(a, f), Pick(m, f));
        }
      }
      assert results[..|results|] == results;
      printed := true;
      forall f: Field
        ensures Pick(average, f) == Total(Column(results, f)) / |results| as real
        ensures Pick(moment2, f) == Deviations(Column(results, f), Total(Column(results, f)) / |results| as real) >= 0.0
      {
        ColumnLength(results, f);
        TracksIsTwoPass(Column(results, f), Pick(average, f), Pick(moment2, f));
      }
    }
  }

  lemma {:induction false} ColumnLength(rs: seq<Result>, f: Field)
    ensures |Column(rs, f)| == |rs|
  {
    if rs != [] {
      ColumnLength(rs[..|rs| - 1], f);
    }
  }

  lemma ColumnPush(rs: seq<Result>, n: nat, f: Field)
    requires n < |rs|
    ensures Column(rs[..n + 1], f) == Column(rs[..n], f) + [Pick(rs[n], f)]
    ensures |Column(rs[..n], f)| == n
  {
    assert rs[..n + 1][..n] == rs[..n];
    ColumnLength(rs[..n], f);
  }
}
