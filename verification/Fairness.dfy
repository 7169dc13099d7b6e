/** The per-flow byte counters of the DCTCP example and Jain's fairness index,
    with the 64-bit unsigned arithmetic written out. */
module Fairness {
  import opened Basics

  type Uint64 = n: nat | n < 0x1_0000_0000_0000_0000

  function Wrap(n: nat): Uint64 { n % 0x1_0000_0000_0000_0000 }

  /** What dividing two unsigned numbers as doubles gives, rounding aside. */
  datatype Double = Finite(value: real) | Infinite | NotANumber

  function Divide(p: nat, q: nat): Double {
    if q != 0 then Finite(p as real / q as real) else if p != 0 then Infinite else NotANumber
  }

  // ---------------------------------------------------------------- the mathematics

  function Total(xs: seq<nat>): nat {
    if xs == [] then 0 else Total(xs[..|xs| - 1]) + xs[|xs| - 1]
  }

  function Squares(xs: seq<nat>): nat {
    if xs == [] then 0 else Squares(xs[..|xs| - 1]) + xs[|xs| - 1] * xs[|xs| - 1]
  }

  ghost predicate AllEqual(xs: seq<nat>) {
    forall i, j | 0 <= i < |xs| && 0 <= j < |xs| :: xs[i] == xs[j]
  }

  ghost predicate AllAre(xs: seq<nat>, x: nat) {
    forall i | 0 <= i < |xs| :: xs[i] == x
  }

  ghost predicate AtMostOneActive(xs: seq<nat>) {
    forall i, j | 0 <= i < j < |xs| :: xs[i] == 0 || xs[j] == 0
  }

  /** The sum of squared distances from `x`, as the code's two sums give it. */
  function Spread(xs: seq<nat>, x: nat): int {
    Squares(xs) - 2 * (Total(xs) * x) + |xs| * (x * x)
  }

  lemma SquareSign(d: int)
    ensures d * d >= 0
    ensures d * d == 0 <==> d == 0
  {
  }

  lemma SpreadAlgebra(q: int, t: int, n: int, x: int, y: int)
    ensures (q + y * y) - 2 * ((t + y) * x) + (n + 1) * (x * x)
         == (q - 2 * (t * x) + n * (x * x)) + (y - x) * (y - x)
  {
  }

  lemma {:induction false} SpreadSign(xs: seq<nat>, x: nat)
    ensures Spread(xs, x) >= 0
    ensures Spread(xs, x) == 0 <==> AllAre(xs, x)
  {
    if xs != [] {
      var front, y := xs[..|xs| - 1], xs[|xs| - 1];
      SpreadSign(front, x);
      SpreadAlgebra(Squares(front), Total(front), |front|, x, y);
      SquareSign(y - x);
      AllAreFront(xs, x);
    }
  }

  lemma AllAreFront(xs: seq<nat>, x: nat)
    requires xs != []
    ensures AllAre(xs, x) <==> AllAre(xs[..|xs| - 1], x) && xs[|xs| - 1] == x
  {
  }

  lemma GapAlgebra(q: int, t: int, n: int, x: int)
    ensures (n + 1) * (q + x * x) - (t + x) * (t + x)
         == (n * q - t * t) + (q - 2 * (t * x) + n * (x * x))
  {
  }

  /** Cauchy's inequality for the two sums the code keeps, with its equality case. */
  lemma {:induction false} CauchySchwarz(xs: seq<nat>)
    ensures Total(xs) * Total(xs) <= |xs| * Squares(xs)
    ensures Total(xs) * Total(xs) == |xs| * Squares(xs) <==> AllEqual(xs)
  {
    if xs != [] {
      var front, x := xs[..|xs| - 1], xs[|xs| - 1];
      CauchySchwarz(front);
      SpreadSign(front, x);
      GapAlgebra(Squares(front), Total(front), |front|, x);
      AllEqualFront(xs);
    }
  }

  lemma AllEqualFront(xs: seq<nat>)
    requires xs != []
    ensures AllEqual(xs) <==> AllEqual(xs[..|xs| - 1]) && AllAre(xs[..|xs| - 1], xs[|xs| - 1])
  {
  }

  lemma TotalZero(xs: seq<nat>)
    ensures Total(xs) == 0 <==> AllAre(xs, 0)
    ensures Squares(xs) == 0 <==> AllAre(xs, 0)
  {
  }

  lemma ProductZero(t: nat, x: nat)
    ensures t * x >= 0
    ensures t * x == 0 <==> t == 0 || x == 0
  {
  }

  lemma SquareOfSum(t: nat, x: nat)
    ensures (t + x) * (t + x) >= t * t + x * x
    ensures (t + x) * (t + x) == t * t + x * x <==> t == 0 || x == 0
  {
  }

  /** The sum of squares never exceeds the square of the sum; equality when at
      most one flow got anything. */
  lemma {:induction false} SquaresAtMost(xs: seq<nat>)
    ensures Squares(xs) <= Total(xs) * Total(xs)
    ensures Squares(xs) == Total(xs) * Total(xs) <==> AtMostOneActive(xs)
  {
    if xs != [] {
      var front, x := xs[..|xs| - 1], xs[|xs| - 1];
      SquaresAtMost(front);
      SquareOfSum(Total(front), x);
      TotalZero(front);
      AtMostOneFront(xs);
    }
  }

  lemma AtMostOneFront(xs: seq<nat>)
    requires xs != []
    ensures AtMostOneActive(xs) <==>
            AtMostOneActive(xs[..|xs| - 1]) && (xs[|xs| - 1] == 0 || AllAre(xs[..|xs| - 1], 0))
  {
  }

  // ---------------------------------------------------------------- wrap-around

  lemma WrapAdd(a: nat, b: nat)
    ensures Wrap(Wrap(a) + b) == Wrap(a + b)
    ensures Wrap(a + Wrap(b)) == Wrap(a + b)
  {
  }

  lemma WrapShift(r: nat, z: nat)
    ensures Wrap(r + 0x1_0000_0000_0000_0000 * z) == Wrap(r)
  {
  }

  lemma WrapMul(a: nat, b: nat)
    ensures Wrap(Wrap(a) * b) == Wrap(a * b)
  {
    var k, r := a / 0x1_0000_0000_0000_0000, Wrap(a);
    assert a == r + 0x1_0000_0000_0000_0000 * k;
    assert a * b == r * b + 0x1_0000_0000_0000_0000 * (k * b);
    WrapShift(r * b, k * b);
  }

  lemma WrapSquare(a: nat)
    ensures Wrap(Wrap(a) * Wrap(a)) == Wrap(a * a)
  {
    WrapMul(a, Wrap(a));
    WrapMul(a, a);
    assert a * Wrap(a) == Wrap(a) * a;
  }

  /** The index PrintFairness writes for a group of counters. */
  function Index(xs: seq<nat>): Double {
    Divide(Wrap(Total(xs) * Total(xs)), Wrap(|xs| * Squares(xs)))
  }

  ghost predicate Small(n: nat) { n < 0x1_0000_0000_0000_0000 }

  ghost predicate RunningSumsSmall(xs: seq<nat>) {
    forall k | 0 <= k <= |xs| :: Small(Total(xs[..k])) && Small(Squares(xs[..k]))
  }

  ghost predicate SquaresSmall(xs: seq<nat>) {
    forall i | 0 <= i < |xs| :: Small(xs[i] * xs[i])
  }

  /** No unsigned expression of PrintFairness leaves 64 bits: the running sums,
      each square, sum * sum and n * sumSquares. */
  ghost predicate NothingWraps(xs: seq<nat>) {
    && RunningSumsSmall(xs)
    && SquaresSmall(xs)
    && Small(Total(xs) * Total(xs))
    && Small(|xs| * Squares(xs))
  }

  lemma {:induction false} PrefixAtMost(xs: seq<nat>, k: nat)
    requires k <= |xs|
    ensures Total(xs[..k]) <= Total(xs) && Squares(xs[..k]) <= Squares(xs)
    ensures k < |xs| ==> xs[k] * xs[k] <= Squares(xs)
  {
    if k == |xs| {
      assert xs[..k] == xs;
    } else {
      var front := xs[..|xs| - 1];
      PrefixAtMost(front, k);
      assert front[..k] == xs[..k];
      SquareSign(xs[|xs| - 1]);
    }
  }

  lemma FactorsAreSmall(t: nat, q: nat, n: nat)
    requires n > 0 && t * t <= n * q && Small(n * q)
    ensures Small(t) && Small(q) && Small(t * t)
  {
  }

  lemma SumsAreSmall(xs: seq<nat>)
    requires xs != [] && Small(|xs| * Squares(xs))
    ensures Small(Total(xs)) && Small(Squares(xs)) && Small(Total(xs) * Total(xs))
  {
    CauchySchwarz(xs);
    FactorsAreSmall(Total(xs), Squares(xs), |xs|);
  }

  lemma PrefixesAreSmall(xs: seq<nat>)
    requires Small(Total(xs)) && Small(Squares(xs))
    ensures RunningSumsSmall(xs) && SquaresSmall(xs)
  {
    forall k | 0 <= k <= |xs|
      ensures Small(Total(xs[..k])) && Small(Squares(xs[..k]))
      ensures k < |xs| ==> Small(xs[k] * xs[k])
    {
      PrefixAtMost(xs, k);
    }
  }

  lemma SmallDenominator(xs: seq<nat>)
    requires xs != [] && Small(|xs| * Squares(xs))
    ensures NothingWraps(xs)
  {
    SumsAreSmall(xs);
    PrefixesAreSmall(xs);
  }

  /** The last product decides: nothing wraps exactly when it does not. */
  lemma NothingWrapsIff(xs: seq<nat>)
    requires xs != []
    ensures NothingWraps(xs) <==> Small(|xs| * Squares(xs))
  {
    if Small(|xs| * Squares(xs)) {
      SmallDenominator(xs);
    }
  }

  lemma {:induction false} SquaresBound(xs: seq<nat>, b: nat)
    requires forall i | 0 <= i < |xs| :: xs[i] <= b
    ensures Squares(xs) <= |xs| * (b * b)
  {
    if xs != [] {
      var front, x := xs[..|xs| - 1], xs[|xs| - 1];
      SquaresBound(front, b);
      SquareMonotone(x, b);
      assert |xs| * (b * b) == |front| * (b * b) + b * b;
    }
  }

  lemma SquareMonotone(x: nat, y: nat)
    requires x <= y
    ensures x * x <= y * y
  {
  }

  lemma {:induction false} SquaresOfUniform(n: nat, b: nat)
    ensures Squares(seq(n, _ => b)) == n * (b * b)
  {
    if n > 0 {
      var xs := seq(n, _ => b);
      assert xs[..n - 1] == seq(n - 1, _ => b);
      SquaresOfUniform(n - 1, b);
      assert n * (b * b) == (n - 1) * (b * b) + b * b;
    }
  }

  ghost predicate SafeBound(n: nat, b: nat) {
    forall xs: seq<nat> | |xs| == n && (forall i | 0 <= i < |xs| :: xs[i] <= b) :: NothingWraps(xs)
  }

  /** A bound on every counter keeps the arithmetic exact if and only if n * b fits
      in 32 bits. */
  lemma SafeBoundIff(n: nat, b: nat)
    requires n > 0
    ensures SafeBound(n, b) <==> n * b < 0x1_0000_0000
  {
    assert n * (n * (b * b)) == (n * b) * (n * b);
    if n * b < 0x1_0000_0000 {
      SquareMonotone(n * b, 0xFFFF_FFFF);
      forall xs: seq<nat> | |xs| == n && (forall i | 0 <= i < |xs| :: xs[i] <= b) ensures NothingWraps(xs) {
        SquaresBound(xs, b);
        MulMonotone(n, Squares(xs), n * (b * b));
        NothingWrapsIff(xs);
      }
    } else {
      var xs := seq(n, _ => b);
      SquaresOfUniform(n, b);
      SquareMonotone(0x1_0000_0000, n * b);
      NothingWrapsIff(xs);
    }
  }

  lemma MulMonotone(n: nat, x: nat, y: nat)
    requires x <= y
    ensures n * x <= n * y
  {
  }

  // ---------------------------------------------------------------- the printed index

  lemma RatioAtMostOne(p: nat, q: nat)
    requires 0 < q && p <= q
    ensures p as real / q as real <= 1.0
    ensures p as real / q as real == 1.0 <==> p == q
  {
    var r := Quotient(p as real, q as real);
    assert Mul(r, q as real) == p as real && Mul(1.0, q as real) == q as real;
    if r > 1.0 {
      MulStrict(1.0, r, q as real);
    } else if r < 1.0 {
      MulStrict(r, 1.0, q as real);
    }
  }

  lemma RatioOneOver(p: nat, n: nat, s: nat)
    requires 0 < n && 0 < s <= p && 0 < n * s
    ensures p as real / (n * s) as real >= 1.0 / n as real
    ensures p as real / (n * s) as real == 1.0 / n as real <==> p == s
  {
    var d, e := n as real, s as real;
    assert (n * s) as real == Mul(d, e);
    MulPositive(d, e);
    var r := Quotient(p as real, Mul(d, e));
    var u := Quotient(1.0, d);
    Reduce(p as real, d, e, r, u);
  }

  lemma Reduce(p: real, d: real, e: real, r: real, u: real)
    requires Mul(d, e) > 0.0 && r * Mul(d, e) == p && u * d == 1.0 && p >= e
    ensures r >= u
    ensures r == u <==> p == e
  {
    assert Mul(r, Mul(d, e)) == p;
    assert Mul(u, Mul(d, e)) == (u * d) * e == e;
    if r < u {
      MulStrict(r, u, Mul(d, e));
    } else if r > u {
      MulStrict(u, r, Mul(d, e));
    }
  }

  /** Jain's index. */
  function Jain(xs: seq<nat>): real
    requires |xs| * Squares(xs) != 0
  {
    (Total(xs) * Total(xs)) as real / (|xs| * Squares(xs)) as real
  }

  /** It lies within [1/n, 1]: 1 for equal shares only, 1/n only when a single flow
      got everything. */
  lemma JainBounds(xs: seq<nat>)
    requires !AllAre(xs, 0)
    ensures |xs| * Squares(xs) != 0
    ensures 1.0 / |xs| as real <= Jain(xs) <= 1.0
    ensures Jain(xs) == 1.0 <==> AllEqual(xs)
    ensures Jain(xs) == 1.0 / |xs| as real <==> AtMostOneActive(xs)
  {
    TotalZero(xs);
    CauchySchwarz(xs);
    SquaresAtMost(xs);
    ProductZero(|xs|, Squares(xs));
    RatioAtMostOne(Total(xs) * Total(xs), |xs| * Squares(xs));
    RatioOneOver(Total(xs) * Total(xs), |xs|, Squares(xs));
  }

  lemma IdleGroup(xs: seq<nat>)
    requires AllAre(xs, 0)
    ensures Index(xs) == NotANumber
  {
    TotalZero(xs);
  }

  lemma BusyGroup(xs: seq<nat>)
    requires |xs| * Squares(xs) != 0 && Small(|xs| * Squares(xs)) && Small(Total(xs) * Total(xs))
    ensures Index(xs) == Finite(Jain(xs))
  {
  }

  /** What is printed is Jain's index, or NaN for a group that received nothing. */
  ghost predicate PrintsJain(xs: seq<nat>) {
    if AllAre(xs, 0) then Index(xs) == NotANumber
    else |xs| * Squares(xs) != 0 && Index(xs) == Finite(Jain(xs))
  }

  lemma PrintedIsJain(xs: seq<nat>)
    requires NothingWraps(xs)
    ensures PrintsJain(xs)
  {
    if AllAre(xs, 0) {
      IdleGroup(xs);
    } else {
      JainBounds(xs);
      BusyGroup(xs);
    }
  }

  /** What wrapping takes away, in multiples of 2^64. */
  function Carry(n: nat): nat { n / 0x1_0000_0000_0000_0000 }

  lemma CarryAndWrap(n: nat)
    ensures n == 0x1_0000_0000_0000_0000 * Carry(n) + Wrap(n)
  {
  }

  lemma SameRatio(p: nat, q: nat, s: nat, n: nat)
    requires q > 0 && n > 0
    ensures p as real / q as real == s as real / n as real <==> p * n == s * q
  {
    var x := Quotient(p as real, q as real);
    var y := Quotient(s as real, n as real);
    assert (p * n) as real == (p as real) * (n as real) && (s * q) as real == (s as real) * (q as real);
    SameQuotients(p as real, q as real, s as real, n as real, x, y);
  }

  lemma SameQuotients(p: real, q: real, s: real, n: real, x: real, y: real)
    requires q > 0.0 && n > 0.0 && x * q == p && y * n == s
    ensures x == y <==> p * n == s * q
  {
    assert p * n == Mul(x, Mul(q, n)) && s * q == Mul(y, Mul(q, n));
    MulPositive(q, n);
    if x < y {
      MulPositive(y - x, Mul(q, n));
      assert Mul(y - x, Mul(q, n)) == Mul(y, Mul(q, n)) - Mul(x, Mul(q, n));
    } else if x > y {
      MulPositive(x - y, Mul(q, n));
      assert Mul(x - y, Mul(q, n)) == Mul(x, Mul(q, n)) - Mul(y, Mul(q, n));
    }
  }

  lemma CrossCarry(s: nat, n: nat)
    ensures Wrap(s) * n == s * Wrap(n) <==> Carry(s) * n == Carry(n) * s
  {
    CarryAndWrap(s);
    CarryAndWrap(n);
    CrossAlgebra(s, n, Wrap(s), Wrap(n), Carry(s), Carry(n));
  }

  lemma CrossAlgebra(s: int, n: int, r: int, u: int, c: int, d: int)
    requires s == 0x1_0000_0000_0000_0000 * c + r && n == 0x1_0000_0000_0000_0000 * d + u
    ensures r * n == s * u <==> c * n == d * s
  {
    assert r * n == (s - 0x1_0000_0000_0000_0000 * c) * n == s * n - 0x1_0000_0000_0000_0000 * (c * n);
    assert s * u == s * (n - 0x1_0000_0000_0000_0000 * d) == s * n - 0x1_0000_0000_0000_0000 * (d * s);
  }

  lemma WrappedRatio(s: nat, n: nat)
    requires n > 0
    ensures Divide(Wrap(s), Wrap(n)) == Finite(s as real / n as real) <==>
              Wrap(n) != 0 && Carry(s) * n == Carry(n) * s
  {
    if Wrap(n) != 0 {
      SameRatio(Wrap(s), Wrap(n), s, n);
      CrossCarry(s, n);
    }
  }

  /** Exactly when the printed value is Jain's index: the wrapped denominator is not
      zero, and numerator and denominator lost multiples of 2^64 in their own ratio. */
  lemma PrintsJainIff(xs: seq<nat>)
    ensures PrintsJain(xs) <==>
              AllAre(xs, 0) ||
              (Wrap(Denominator(xs)) != 0 &&
               Carry(Numerator(xs)) * Denominator(xs) == Carry(Denominator(xs)) * Numerator(xs))
  {
    if AllAre(xs, 0) {
      IdleGroup(xs);
    } else {
      JainBounds(xs);
      WrappedRatio(Numerator(xs), Denominator(xs));
    }
  }

  function Numerator(xs: seq<nat>): nat { Total(xs) * Total(xs) }

  function Denominator(xs: seq<nat>): nat { |xs| * Squares(xs) }

  /** Equal shares print 1 however large they are, unless the denominator wraps to 0. */
  lemma EqualSharesPrintOne(xs: seq<nat>)
    requires AllEqual(xs) && !AllAre(xs, 0)
    ensures PrintsJain(xs) <==> Wrap(Denominator(xs)) != 0
  {
    PrintsJainIff(xs);
    CauchySchwarz(xs);
  }

  lemma {:induction false} TotalPushed(xs: seq<nat>, x: nat)
    ensures Total(xs + [x]) == Total(xs) + x
    ensures Squares(xs + [x]) == Squares(xs) + x * x
  {
  }

  /** Beyond the bound the printed value can be anything: one active flow out of
      ten, with 3037000500 bytes, prints an index of more than a billion. */
  lemma WrappedIndex()
    ensures exists xs: seq<Uint64> :: |xs| == 10 && Index(xs).Finite? && Index(xs).value > 1000000000.0
  {
    var idle: seq<Uint64> := seq(9, _ => 0);
    var xs: seq<Uint64> := idle + [3037000500];
    TotalZero(idle);
    TotalPushed(idle, 3037000500);
    assert Wrap(Total(xs) * Total(xs)) == 9223372037000250000;
    assert Wrap(|xs| * Squares(xs)) == 1454741920;
    assert 9223372037000250000.0 / 1454741920.0 > 1000000000.0;
  }

  /** The default run: a 1 Gbps link carries 125000000 bytes in the one second of
      measurement, so every group's index is exact; for the group of twenty the
      largest safe counter is 214748364 and for a group of ten 429496729. */
  lemma DefaultWindowIsSafe()
    ensures forall b: nat :: SafeBound(20, b) <==> b <= 214748364
    ensures forall b: nat :: SafeBound(10, b) <==> b <= 429496729
    ensures SafeBound(20, 125000000) && SafeBound(10, 125000000)
  {
    forall b: nat ensures SafeBound(20, b) <==> b <= 214748364 {
      SafeBoundIff(20, b);
    }
    forall b: nat ensures SafeBound(10, b) <==> b <= 429496729 {
      SafeBoundIff(10, b);
    }
  }

  // ---------------------------------------------------------------- the counters

  datatype Group = S1R1 | S2R2 | S3R1

  function Flows(g: Group): nat {
    match g
    case S1R1 => 10
    case S2R2 => 20
    case S3R1 => 10
  }

  /** What happens to the counters: they are set to zero when the measurement
      starts, and a sink reports each packet it gets with the index of its flow. */
  datatype Event = Initialize | Receive(group: Group, flow: nat, size: nat)

  predicate InRange(e: Event) {
    e.Receive? ==> e.flow < Flows(e.group)
  }

  /** Bytes a flow received since the measurement last started. */
  function Bytes(events: seq<Event>, g: Group, i: nat): nat {
    if events == [] then 0
    else
      var before, e := Bytes(events[..|events| - 1], g, i), events[|events| - 1];
      match e
      case Initialize => 0
      case Receive(group, flow, size) => if group == g && flow == i then before + size else before
  }

  /** The received bytes of a group, one entry for each of its flows. */
  function Received(events: seq<Event>, g: Group): (r: seq<nat>)
    ensures |r| == Flows(g)
  {
    seq(Flows(g), (i: nat) => Bytes(events, g, i))
  }

  function Wrapped(xs: seq<nat>): (r: seq<Uint64>)
    ensures |r| == |xs|
    ensures forall i | 0 <= i < |xs| :: r[i] == Wrap(xs[i])
  {
    seq(|xs|, (i: nat) requires i < |xs| => Wrap(xs[i]))
  }

  /** bits is the integer whose quotient by the window is printed as the average. */
  datatype GroupReport = GroupReport(bits: Uint64, fairness: Double)

  datatype Report = Report(s1r1: GroupReport, s2r2: GroupReport, s3r1: GroupReport,
                           throughT1: Uint64, toR1: Uint64)

  function GroupReportOf(xs: seq<nat>): GroupReport
    requires xs != []
  {
    GroupReport(AverageBits(Wrap(Total(xs)), |xs|), Index(xs))
  }

  function AverageBits(sum: Uint64, n: nat): Uint64
    requires n > 0
  {
    Wrap(sum / n * 8)
  }

  /** `bits` is a whole number of bytes in bits, the largest whose n-fold does not exceed
      the total. */
  ghost predicate IsAverage(bits: nat, total: nat, n: nat) {
    bits % 8 == 0 && n * bits <= 8 * total < n * bits + 8 * n
  }

  ghost predicate AverageFits(total: nat, n: nat)
    requires n > 0
  {
    Small(total) && Small(total / n * 8)
  }

  lemma WholeShare(total: nat, n: nat)
    requires n > 0
    ensures n * (total / n) <= total < n * (total / n) + n
  {
    assert total == n * (total / n) + total % n;
  }

  lemma ShareInBits(q: nat, total: nat, n: nat)
    requires n * q <= total < n * q + n
    ensures IsAverage(q * 8, total, n)
  {
    assert n * (q * 8) == 8 * (n * q);
  }

  lemma BitsOfShare(total: nat, n: nat)
    requires n > 0 && AverageFits(total, n)
    ensures AverageBits(Wrap(total), n) == total / n * 8
  {
    SmallIsSame(total);
    SmallIsSame(total / n * 8);
  }

  lemma SmallIsSame(n: nat)
    requires Small(n)
    ensures Wrap(n) == n
  {
  }

  /** The average of a group is its share of the bytes received, in bits. */
  lemma AverageIsShare(total: nat, n: nat)
    requires n > 0 && AverageFits(total, n)
    ensures IsAverage(AverageBits(Wrap(total), n), total, n)
  {
    BitsOfShare(total, n);
    WholeShare(total, n);
    ShareInBits(total / n, total, n);
  }

  lemma ShareOfMultiple(n: nat, x: nat)
    requires n > 0
    ensures n * x / n == x
  {
    WholeShare(n * x, n);
    SameFactor(n, n * x / n, x);
  }

  /** Equal flows of x bytes report 8 * x bits. */
  lemma AverageOfEquals(xs: seq<nat>, x: nat)
    requires xs != [] && AllAre(xs, x) && Small(|xs| * x) && Small(8 * x)
    ensures AverageBits(Wrap(Total(xs)), |xs|) == 8 * x
  {
    TotalOfEquals(xs, x);
    EqualShare(|xs|, x);
  }

  lemma EqualShare(n: nat, x: nat)
    requires n > 0 && Small(n * x) && Small(8 * x)
    ensures AverageBits(Wrap(n * x), n) == 8 * x
  {
    ShareOfMultiple(n, x);
    BitsOfShare(n * x, n);
  }

  lemma SameFactor(n: nat, q: nat, x: nat)
    requires n > 0 && n * q <= n * x < n * q + n
    ensures q == x
  {
    if q < x {
      MulMonotone(n, q + 1, x);
    } else if q > x {
      MulMonotone(n, x + 1, q);
    }
  }

  lemma {:induction false} TotalOfEquals(xs: seq<nat>, x: nat)
    requires AllAre(xs, x)
    ensures Total(xs) == |xs| * x
  {
    if xs != [] {
      TotalOfEquals(xs[..|xs| - 1], x);
      assert |xs| * x == (|xs| - 1) * x + x;
    }
  }

  function FairnessOf(sum: Uint64, sumSquares: Uint64, n: nat): Double {
    Divide(Wrap(sum * sum), Wrap(n * sumSquares))
  }

  /** What the report says of counters with these values. */
  function ReportOf(a: seq<Uint64>, b: seq<Uint64>, c: seq<Uint64>): Report
    requires a != [] && b != [] && c != []
  {
    Report(GroupReportOf(a), GroupReportOf(b), GroupReportOf(c), AggregateBits(a, b), AggregateBits(c, a))
  }

  function AggregateBits(a: seq<nat>, b: seq<nat>): Uint64 {
    Wrap((Total(a) + Total(b)) * 8)
  }

  function AddTo(sum: Uint64, x: nat): Uint64 { Wrap(sum + x) }

  function AddSquareTo(sum: Uint64, x: nat): Uint64 { Wrap(sum + Wrap(x * x)) }

  lemma Summed(xs: seq<nat>, start: nat, sum: Uint64, x: nat)
    requires sum == Wrap(start + Total(xs))
    ensures AddTo(sum, x) == Wrap(start + Total(xs + [x]))
  {
  }

  lemma SquareSummed(xs: seq<nat>, sum: Uint64, x: nat)
    requires sum == Wrap(Squares(xs))
    ensures AddSquareTo(sum, x) == Wrap(Squares(xs + [x]))
  {
    TotalPushed(xs, x);
    WrapAdd(Squares(xs), x * x);
    WrapAdd(sum, x * x);
  }

  lemma DivideWrapped(t: nat, q: nat, n: nat)
    ensures FairnessOf(Wrap(t), Wrap(q), n) == Divide(Wrap(t * t), Wrap(n * q))
  {
    WrapSquare(t);
    WrapMul(q, n);
    assert n * Wrap(q) == Wrap(q) * n && n * q == q * n;
  }

  lemma IndexFromWrapped(xs: seq<nat>, sum: Uint64, sumSquares: Uint64)
    requires sum == Wrap(Total(xs)) && sumSquares == Wrap(Squares(xs))
    ensures FairnessOf(sum, sumSquares, |xs|) == Index(xs)
  {
    DivideWrapped(Total(xs), Squares(xs), |xs|);
  }

  lemma Aggregated(a: seq<nat>, b: seq<nat>, first: nat, sum: nat)
    requires first == Wrap(0 + Total(a)) && sum == Wrap(first + Total(b))
    ensures Wrap(sum * 8) == AggregateBits(a, b)
  {
    WrapAdd(Total(a), Total(b));
    WrapMul(Total(a) + Total(b), 8);
  }

  method AddAll(counters: array<Uint64>, start: Uint64) returns (sum: Uint64)
    ensures sum == Wrap(start + Total(counters[..]))
  {
    sum := start;
    for i := 0 to counters.Length
      invariant sum == Wrap(start + Total(counters[..i]))
    {
      Summed(counters[..i], start, sum, counters[i]);
      assert counters[..i + 1] == counters[..i] + [counters[i]];
      sum := AddTo(sum, counters[i]);
    }
    assert counters[..counters.Length] == counters[..];
  }

  method AddUp(counters: array<Uint64>) returns (sum: Uint64, sumSquares: Uint64)
    ensures sum == Wrap(Total(counters[..]))
    ensures sumSquares == Wrap(Squares(counters[..]))
  {
    sumSquares, sum := 0, 0;
    for i := 0 to counters.Length
      invariant sum == Wrap(0 + Total(counters[..i]))
      invariant sumSquares == Wrap(Squares(counters[..i]))
    {
      Summed(counters[..i], 0, sum, counters[i]);
      SquareSummed(counters[..i], sumSquares, counters[i]);
      assert counters[..i + 1] == counters[..i] + [counters[i]];
      sum := AddTo(sum, counters[i]);
      sumSquares := AddSquareTo(sumSquares, counters[i]);
    }
    assert counters[..counters.Length] == counters[..];
  }

  method Summarize(counters: array<Uint64>) returns (report: GroupReport)
    requires counters.Length > 0
    ensures report == GroupReportOf(counters[..])
    ensures AverageFits(Total(counters[..]), counters.Length) ==>
              IsAverage(report.bits, Total(counters[..]), counters.Length)
  {
    var sum, sumSquares := AddUp(counters);
    if AverageFits(Total(counters[..]), counters.Length) {
      AverageIsShare(Total(counters[..]), counters.Length);
    }
    IndexFromWrapped(counters[..], sum, sumSquares);
    report := GroupReport(AverageBits(sum, counters.Length), FairnessOf(sum, sumSquares, counters.Length));
  }

  method Aggregate(first: array<Uint64>, second: array<Uint64>) returns (bits: Uint64)
    ensures bits == AggregateBits(first[..], second[..])
  {
    var partial := AddAll(first, 0);
    var sum: nat := AddAll(second, partial);
    Aggregated(first[..], second[..], partial, sum);
    bits := Wrap(sum * 8);
  }

  method Clear(counters: array<Uint64>)
    modifies counters
    ensures AllAre(counters[..], 0)
  {
    for i := 0 to counters.Length
      invariant forall k | 0 <= k < i :: counters[k] == 0
    {
      counters[i] := 0;
    }
  }

  /** The counters of a group are what the events so far make them. */
  ghost predicate Reflects(xs: seq<nat>, events: seq<Event>, g: Group) {
    |xs| == Flows(g) && forall i | 0 <= i < |xs| :: xs[i] == Wrap(Bytes(events, g, i))
  }

  lemma ReflectsInitialize(xs: seq<nat>, events: seq<Event>, g: Group)
    requires |xs| == Flows(g) && AllAre(xs, 0)
    ensures Reflects(xs, events + [Initialize], g)
  {
  }

  lemma ReflectsOther(xs: seq<nat>, events: seq<Event>, e: Event, g: Group)
    requires Reflects(xs, events, g) && e.Receive? && e.group != g
    ensures Reflects(xs, events + [e], g)
  {
  }

  lemma ReflectsReceive(xs: seq<nat>, events: seq<Event>, e: Event)
    requires e.Receive? && InRange(e) && Reflects(xs, events, e.group)
    ensures Reflects(xs[e.flow := Wrap(xs[e.flow] + e.size)], events + [e], e.group)
  {
  }

  class Counters {
    const s1r1: array<Uint64>
    const s2r2: array<Uint64>
    const s3r1: array<Uint64>

    ghost predicate Valid() {
      s1r1.Length == 10 && s2r2.Length == 20 && s3r1.Length == 10 && s1r1 != s3r1
    }

    /** The counters after these events. */
    ghost predicate After(events: seq<Event>)
      reads s1r1, s2r2, s3r1
    {
      && Reflects(s1r1[..], events, S1R1)
      && Reflects(s2r2[..], events, S2R2)
      && Reflects(s3r1[..], events, S3R1)
    }

    constructor ()
      ensures Valid() && fresh(s1r1) && fresh(s2r2) && fresh(s3r1)
      ensures After([])
    {
      s1r1 := new Uint64[10](_ => 0);
      s2r2 := new Uint64[20](_ => 0);
      s3r1 := new Uint64[10](_ => 0);
    }

    method TraceS1R1Sink(index: nat, size: nat)
      requires Valid() && index < 10
      modifies s1r1
      ensures s1r1[..] == old(s1r1[..])[index := Wrap(old(s1r1[index]) + size)]
    {
      s1r1[index] := Wrap(s1r1[index] + size);
    }

    method TraceS2R2Sink(index: nat, size: nat)
      requires Valid() && index < 20
      modifies s2r2
      ensures s2r2[..] == old(s2r2[..])[index := Wrap(old(s2r2[index]) + size)]
    {
      s2r2[index] := Wrap(s2r2[index] + size);
    }

    method TraceS3R1Sink(index: nat, size: nat)
      requires Valid() && index < 10
      modifies s3r1
      ensures s3r1[..] == old(s3r1[..])[index := Wrap(old(s3r1[index]) + size)]
    {
      s3r1[index] := Wrap(s3r1[index] + size);
    }

    method InitializeCounters()
      requires Valid()
      modifies s1r1, s2r2, s3r1
      ensures AllAre(s1r1[..], 0) && AllAre(s2r2[..], 0) && AllAre(s3r1[..], 0)
    {
      Clear(s1r1);
      Clear(s2r2);
      Clear(s3r1);
    }

    method PrintFairness() returns (report: Report)
      requires Valid()
      ensures report == ReportOf(s1r1[..], s2r2[..], s3r1[..])
      ensures report.s1r1 == GroupReportOf(s1r1[..])
      ensures report.s2r2 == GroupReportOf(s2r2[..])
      ensures report.s3r1 == GroupReportOf(s3r1[..])
      ensures report.throughT1 == AggregateBits(s1r1[..], s2r2[..])
      ensures report.toR1 == AggregateBits(s3r1[..], s1r1[..])
    {
      var first := Summarize(s1r1);
      var second := Summarize(s2r2);
      var third := Summarize(s3r1);
      var throughT1 := Aggregate(s1r1, s2r2);
      var toR1 := Aggregate(s3r1, s1r1);
      report := Report(first, second, third, throughT1, toR1);
    }

    method Handle(ghost events: seq<Event>, e: Event)
      requires Valid() && After(events) && InRange(e)
      modifies s1r1, s2r2, s3r1
      ensures After(events + [e])
    {
      match e
      case Initialize =>
        InitializeCounters();
        ReflectsInitialize(s1r1[..], events, S1R1);
        ReflectsInitialize(s2r2[..], events, S2R2);
        ReflectsInitialize(s3r1[..], events, S3R1);
      case Receive(group, flow, size) =>
        match group
        case S1R1 =>
          ReflectsReceive(s1r1[..], events, e);
          ReflectsOther(s2r2[..], events, e, S2R2);
          ReflectsOther(s3r1[..], events, e, S3R1);
          TraceS1R1Sink(flow, size);
        case S2R2 =>
          ReflectsOther(s1r1[..], events, e, S1R1);
          ReflectsReceive(s2r2[..], events, e);
          ReflectsOther(s3r1[..], events, e, S3R1);
          TraceS2R2Sink(flow, size);
        case S3R1 =>
          ReflectsOther(s1r1[..], events, e, S1R1);
          ReflectsOther(s2r2[..], events, e, S2R2);
          ReflectsReceive(s3r1[..], events, e);
          TraceS3R1Sink(flow, size);
    }

    /** A whole run: any events, then the report of what the flows received since
        the last initialisation, modulo 2^64. */
    method Simulate(events: seq<Event>) returns (report: Report)
      requires Valid() && After([])
      requires forall e | e in events :: InRange(e)
      modifies s1r1, s2r2, s3r1
      ensures After(events)
      ensures report == ReportOf(Wrapped(Received(events, S1R1)),
                                 Wrapped(Received(events, S2R2)),
                                 Wrapped(Received(events, S3R1)))
    {
      for k := 0 to |events|
        invariant After(events[..k])
      {
        assert events[..k + 1] == events[..k] + [events[k]];
        assert events[k] in events;
        Handle(events[..k], events[k]);
      }
      assert events[..|events|] == events;
      report := PrintFairness();
      ReflectsWrapped(s1r1[..], events, S1R1);
      ReflectsWrapped(s2r2[..], events, S2R2);
      ReflectsWrapped(s3r1[..], events, S3R1);
    }
  }

  lemma ReflectsWrapped(xs: seq<nat>, events: seq<Event>, g: Group)
    requires Reflects(xs, events, g)
    ensures xs == Wrapped(Received(events, g))
  {
  }

  function LargestSafe(g: Group): nat {
    if g == S2R2 then 214748364 else 429496729
  }

  lemma WrappedIsSame(xs: seq<nat>)
    requires forall i | 0 <= i < |xs| :: Small(xs[i])
    ensures Wrapped(xs) == xs
  {
  }

  lemma {:induction false} TotalBound(xs: seq<nat>, b: nat)
    requires forall i | 0 <= i < |xs| :: xs[i] <= b
    ensures Total(xs) <= |xs| * b
  {
    if xs != [] {
      TotalBound(xs[..|xs| - 1], b);
      assert |xs| * b == (|xs| - 1) * b + b;
    }
  }

  /** The flows of a group received no more than its bound. */
  ghost predicate WithinBound(events: seq<Event>, g: Group) {
    forall i | 0 <= i < Flows(g) :: Bytes(events, g, i) <= LargestSafe(g)
  }

  lemma WithinBoundTotal(events: seq<Event>, g: Group)
    requires WithinBound(events, g)
    ensures Wrapped(Received(events, g)) == Received(events, g)
    ensures Total(Received(events, g)) < 0x1_0000_0000
  {
    var xs := Received(events, g);
    assert forall i | 0 <= i < |xs| :: xs[i] <= LargestSafe(g);
    WrappedIsSame(xs);
    TotalBound(xs, LargestSafe(g));
  }

  /** When no flow of a group received more than the bound, its report is about the
      bytes really received: Jain's index of them, or NaN if there were none, and their
      average in bits. */
  lemma ReportedFairness(events: seq<Event>, g: Group)
    requires WithinBound(events, g)
    ensures Wrapped(Received(events, g)) == Received(events, g)
    ensures PrintsJain(Received(events, g))
    ensures IsAverage(GroupReportOf(Received(events, g)).bits, Total(Received(events, g)), Flows(g))
  {
    var xs := Received(events, g);
    DefaultWindowIsSafe();
    assert SafeBound(Flows(g), LargestSafe(g));
    assert forall i | 0 <= i < |xs| :: xs[i] <= LargestSafe(g);
    WithinBoundTotal(events, g);
    PrintedIsJain(xs);
    ShareFits(Total(xs), Flows(g));
    AverageIsShare(Total(xs), Flows(g));
  }

  lemma ShareFits(total: nat, n: nat)
    requires n > 0 && total < 0x1_0000_0000
    ensures AverageFits(total, n)
  {
    WholeShare(total, n);
    AtLeastOnce(n, total / n);
  }

  lemma AtLeastOnce(n: nat, q: nat)
    requires n > 0
    ensures q <= n * q
  {
    assert n * q == q + (n - 1) * q;
  }

  /** The aggregates of such a run: eight times the bytes of the two groups. */
  lemma ReportedAggregate(events: seq<Event>, g: Group, h: Group)
    requires WithinBound(events, g) && WithinBound(events, h)
    ensures AggregateBits(Wrapped(Received(events, g)), Wrapped(Received(events, h))) ==
            8 * (Total(Received(events, g)) + Total(Received(events, h)))
  {
    WithinBoundTotal(events, g);
    WithinBoundTotal(events, h);
  }
}
