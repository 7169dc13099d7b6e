/** The trace contexts of tcp-variants-comparison: how a node's number is written into
    a path and read back from it. */
module ContextPath {
  import opened Basics

  /** std::string::find_first_of for one character; None is npos. */
  function FindFirstOf(s: string, c: char, from: nat): (r: Option<nat>)
    ensures r.Some? ==> from <= r.value < |s|
    decreases |s| - from
  {
    if from >= |s| then None else if s[from] == c then Some(from) else FindFirstOf(s, c, from + 1)
  }

  predicate IsSpace(c: char) {
    c == ' ' || c == '\t' || c == '\n' || c == '\U{0B}' || c == '\U{0C}' || c == '\r'
  }

  predicate IsDigit(c: char) { '0' <= c <= '9' }

  function SkipSpace(s: string): string {
    if s != [] && IsSpace(s[0]) then SkipSpace(s[1..]) else s
  }

  function LeadingDigits(s: string): string {
    if s == [] || !IsDigit(s[0]) then [] else [s[0]] + LeadingDigits(s[1..])
  }

  function DigitValue(c: char): nat
    requires IsDigit(c)
  {
    c as nat - '0' as nat
  }

  function DigitsValue(s: string): nat {
    if s == [] then 0
    else
      var c := s[|s| - 1];
      DigitsValue(s[..|s| - 1]) * 10 + (if IsDigit(c) then DigitValue(c) else 0)
  }

  function Wrap64(n: int): nat { n % 0x1_0000_0000_0000_0000 }

  /** std::stoul in base ten; None is an exception. A minus sign negates modulo 2^64. */
  function Stoul(s: string): Option<nat> {
    var t := SkipSpace(s);
    var signed := t != [] && (t[0] == '-' || t[0] == '+');
    var digits := LeadingDigits(if signed then t[1..] else t);
    var n: int := DigitsValue(digits);
    if digits == [] || n >= 0x1_0000_0000_0000_0000 then None
    else if signed && t[0] == '-' then Some(Wrap64(-n))
    else Some(n)
  }

  /** GetNodeIdFromContext. Without a slash after position 0, n1 is npos, n1 + 1 wraps
      round to 0, and the search starts over at the beginning. */
  function NodeIdFromContext(context: string): Option<nat> {
    var n1 := FindFirstOf(context, '/', 1);
    var from := if n1.Some? then n1.value + 1 else 0;
    var n2 := FindFirstOf(context, '/', from);
    var field := if n2.Some? then context[from..n2.value] else context[from..];
    match Stoul(field)
    case None => None
    case Some(n) => Some(n % 0x1_0000_0000)
  }

  // ---------------------------------------------------------------- printing

  function Digit(n: nat): (d: char)
    requires n < 10
    ensures d as int == 48 + n
  {
    '0' + n as char
  }

  /** std::to_string. */
  function Decimal(n: nat): string {
    if n < 10 then [Digit(n)] else Decimal(n / 10) + [Digit(n % 10)]
  }

  /** The path that TraceCwnd and TraceSsThresh connect to. */
  function ContextOf(id: nat, rest: string): string {
    "/NodeList/" + Decimal(id) + "/" + rest
  }

  predicate AllDigits(s: string) {
    forall i | 0 <= i < |s| :: IsDigit(s[i])
  }

  lemma {:induction false} DecimalReads(n: nat)
    ensures Decimal(n) != [] && AllDigits(Decimal(n)) && DigitsValue(Decimal(n)) == n
  {
    if n < 10 {
      assert Decimal(n)[..0] == [];
    } else {
      DecimalReads(n / 10);
      assert Decimal(n)[..|Decimal(n)| - 1] == Decimal(n / 10);
    }
  }

  lemma {:induction false} AllLeadingDigits(s: string)
    requires AllDigits(s)
    ensures LeadingDigits(s) == s
  {
    if s != [] {
      AllLeadingDigits(s[1..]);
    }
  }

  lemma StoulDecimal(n: nat)
    ensures Stoul(Decimal(n)) == if n < 0x1_0000_0000_0000_0000 then Some(n) else None
  {
    var s := Decimal(n);
    DecimalReads(n);
    assert IsDigit(s[0]);
    AllLeadingDigits(s);
  }

  lemma {:induction false} FindFirstOfIs(s: string, c: char, from: nat, k: nat)
    requires from <= k < |s| && s[k] == c
    requires forall i | from <= i < k :: s[i] != c
    ensures FindFirstOf(s, c, from) == Some(k)
    decreases k - from
  {
    if from < k {
      FindFirstOfIs(s, c, from + 1, k);
    }
  }

  lemma ContextShape(id: nat, rest: string)
    ensures var s, n := ContextOf(id, rest), |Decimal(id)|;
            && |s| == 10 + n + 1 + |rest|
            && s[9] == '/' && s[10 + n] == '/' && s[10..10 + n] == Decimal(id)
            && (forall i | 1 <= i < 9 :: s[i] != '/')
            && (forall i | 10 <= i < 10 + n :: s[i] != '/')
  {
  }

  /** What was printed is read back: every 32-bit node number exactly, larger ones
      modulo 2^32, and an exception beyond 64 bits. */
  lemma RoundTrip(id: nat, rest: string)
    ensures id < 0x1_0000_0000 ==> NodeIdFromContext(ContextOf(id, rest)) == Some(id)
    ensures NodeIdFromContext(ContextOf(id, rest)) ==
            if id < 0x1_0000_0000_0000_0000 then Some(id % 0x1_0000_0000) else None
  {
    var s, n := ContextOf(id, rest), |Decimal(id)|;
    ContextShape(id, rest);
    FindFirstOfIs(s, '/', 1, 9);
    FindFirstOfIs(s, '/', 10, 10 + n);
    StoulDecimal(id);
  }

  // ---------------------------------------------------------------- decimal notation

  function Pow10(k: nat): (p: nat)
    ensures p > 0
  {
    if k == 0 then 1 else 10 * Pow10(k - 1)
  }

  lemma DivideTwice(n: nat, p: nat)
    requires p > 0
    ensures n / 10 / p == n / (10 * p)
  {
    var q := n / (10 * p);
    var r := n % (10 * p);
    assert n == 10 * p * q + r && 0 <= r < 10 * p;
    assert n == 10 * (p * q) + r && n / 10 == p * q + r / 10 && 0 <= r / 10 < p;
    QuotientIs(n / 10, p, q, r / 10);
  }

  lemma FactorStep(p: nat, k: nat, q: nat)
    requires k < q
    ensures p * k + p <= p * q
  {
    assert p * q == p * k + p * (q - k) && p * (q - k) == p + p * (q - k - 1);
  }

  lemma QuotientIs(n: nat, p: nat, q: nat, r: nat)
    requires p > 0 && n == p * q + r && r < p
    ensures n / p == q
  {
    SameQuotient(p, n / p, n % p, q, r);
  }

  lemma SameQuotient(p: nat, k: nat, m: nat, q: nat, r: nat)
    requires p * k + m == p * q + r && m < p && r < p
    ensures k == q
  {
    if k < q {
      FactorStep(p, k, q);
    } else if k > q {
      FactorStep(p, q, k);
    }
  }

  /** Digit k from the end stands for the tens to the power k; the first is not a zero
      unless the number is 0. */
  lemma {:induction false} DecimalDigits(n: nat)
    ensures Decimal(n) != []
    ensures n == 0 ==> Decimal(n) == ['0']
    ensures n > 0 ==> Decimal(n)[0] != '0'
    ensures forall k | 0 <= k < |Decimal(n)| :: Decimal(n)[|Decimal(n)| - 1 - k] == Digit(n / Pow10(k) % 10)
  {
    if n >= 10 {
      var front, d := Decimal(n / 10), Decimal(n);
      DecimalDigits(n / 10);
      forall k | 0 <= k < |d| ensures d[|d| - 1 - k] == Digit(n / Pow10(k) % 10) {
        if k > 0 {
          DivideTwice(n, Pow10(k - 1));
          assert d[|d| - 1 - k] == front[|front| - 1 - (k - 1)];
        } else {
          assert Pow10(0) == 1;
        }
      }
    } else {
      assert Pow10(0) == 1;
    }
  }

  // ---------------------------------------------------------------- everything stoul reads

  predicate NoDigitFirst(rest: string) { rest == "" || !IsDigit(rest[0]) }

  predicate AllSpaces(s: string) { forall i | 0 <= i < |s| :: IsSpace(s[i]) }

  lemma {:induction false} SkipAll(space: string, t: string)
    requires AllSpaces(space) && (t == "" || !IsSpace(t[0]))
    ensures SkipSpace(space + t) == t
  {
    if space == "" {
      assert space + t == t;
    } else {
      assert (space + t)[1..] == space[1..] + t;
      SkipAll(space[1..], t);
    }
  }

  lemma {:induction false} LeadingOnly(digits: string, rest: string)
    requires AllDigits(digits) && NoDigitFirst(rest)
    ensures LeadingDigits(digits + rest) == digits
  {
    if digits == "" {
      assert digits + rest == rest;
    } else {
      assert (digits + rest)[1..] == digits[1..] + rest;
      LeadingOnly(digits[1..], rest);
    }
  }

  datatype Sign = Unsigned | Plus | Minus

  function SignText(sign: Sign): string {
    match sign
    case Unsigned => ""
    case Plus => "+"
    case Minus => "-"
  }

  /** What the sign leaves to be read. */
  lemma SignedNumber(sign: Sign, number: string)
    requires number != "" && IsDigit(number[0])
    ensures var t := SignText(sign) + number;
            && t != "" && !IsSpace(t[0])
            && (t[0] == '-' <==> sign.Minus?) && (t[0] == '+' <==> sign.Plus?)
            && (if sign.Unsigned? then t else t[1..]) == number
  {
    var t := SignText(sign) + number;
    assert sign.Unsigned? ==> t == number;
    assert !sign.Unsigned? ==> t[0] == SignText(sign)[0] && t[1..] == number;
  }

  lemma NumberStart(n: nat, rest: string)
    requires NoDigitFirst(rest)
    ensures Decimal(n) + rest != "" && IsDigit((Decimal(n) + rest)[0])
    ensures LeadingDigits(Decimal(n) + rest) == Decimal(n) && Decimal(n) != [] && DigitsValue(Decimal(n)) == n
  {
    DecimalReads(n);
    assert (Decimal(n) + rest)[0] == Decimal(n)[0];
    LeadingOnly(Decimal(n), rest);
  }

  /** White space, a sign, a number, anything that does not go on with a digit: the
      number, modulo 2^64 if negated, and an exception if it has more than 64 bits. */
  lemma StoulReads(space: string, sign: Sign, n: nat, rest: string)
    requires AllSpaces(space) && NoDigitFirst(rest)
    ensures Stoul(space + (SignText(sign) + (Decimal(n) + rest))) ==
            if n >= 0x1_0000_0000_0000_0000 then None
            else if sign.Minus? && n > 0 then Some(0x1_0000_0000_0000_0000 - n)
            else Some(n)
  {
    NumberStart(n, rest);
    SignedNumber(sign, Decimal(n) + rest);
    SkipAll(space, SignText(sign) + (Decimal(n) + rest));
  }

  /** What is neither a digit nor a sign after white space is an exception. */
  lemma StoulRefuses(space: string, t: string)
    requires AllSpaces(space) && (t == "" || (!IsSpace(t[0]) && !IsDigit(t[0]) && t[0] != '+' && t[0] != '-'))
    ensures Stoul(space + t).None?
  {
    SkipAll(space, t);
  }

  predicate NoSlash(s: string) { '/' !in s }

  lemma {:induction false} FindNone(s: string, from: nat)
    requires forall i | from <= i < |s| :: s[i] != '/'
    ensures FindFirstOf(s, '/', from) == None
    decreases |s| - from
  {
    if from < |s| {
      FindNone(s, from + 1);
    }
  }

  function Modulo32(v: Option<nat>): Option<nat> {
    if v.None? then None else Some(v.value % 0x1_0000_0000)
  }

  /** In any context the number is read between the first slash after position 0 and
      the next one, or the end. */
  lemma SecondField(c: char, a: string, field: string, rest: string)
    requires NoSlash(a) && NoSlash(field) && (rest == "" || rest[0] == '/')
    ensures NodeIdFromContext([c] + (a + ("/" + (field + rest)))) == Modulo32(Stoul(field))
  {
    var s := [c] + (a + ("/" + (field + rest)));
    var n1, n2 := 1 + |a|, 2 + |a| + |field|;
    assert s[n1] == '/';
    forall i | 1 <= i < n1 ensures s[i] != '/' {
      assert s[i] == a[i - 1];
    }
    FindFirstOfIs(s, '/', 1, n1);
    forall i | n1 + 1 <= i < n2 ensures s[i] != '/' {
      assert s[i] == field[i - n1 - 1];
    }
    if rest == "" {
      FindNone(s, n1 + 1);
      assert s[n1 + 1..] == field;
    } else {
      assert s[n2] == rest[0];
      FindFirstOfIs(s, '/', n1 + 1, n2);
      assert s[n1 + 1..n2] == field;
    }
  }

  /** Without such a slash the search starts over: up to a slash at position 0, else
      the whole context. */
  lemma NoSecondField(context: string)
    requires forall i | 1 <= i < |context| :: context[i] != '/'
    ensures NodeIdFromContext(context) ==
            if context != "" && context[0] == '/' then None else Modulo32(Stoul(context))
  {
    FindNone(context, 1);
    if context != "" && context[0] == '/' {
      FindFirstOfIs(context, '/', 0, 0);
      assert context[0..0] == "" + "";
      StoulRefuses("", "");
    } else {
      FindNone(context, 0);
      assert context[0..] == context;
    }
  }
}
