/** The substitution of pybindings-LP64-to-ILP32: every `unsigned long` that is not
    followed by ` long` becomes `unsigned long long`. */
module LongRewrite {

  const PATTERN := "unsigned long"

  const TAIL := " long"

  predicate StartsWith(s: string, w: string) { w <= s }

  /** The pattern matches at the front of s. */
  predicate Bare(s: string) {
    StartsWith(s, PATTERN) && !StartsWith(s, PATTERN + TAIL)
  }

  /** re.sub: replace at a match and go on behind it, otherwise move on by one. */
  function Rewrite(s: string): string
    decreases |s|
  {
    if s == [] then []
    else if Bare(s) then PATTERN + TAIL + Rewrite(s[|PATTERN|..])
    else [s[0]] + Rewrite(s[1..])
  }

  /** No position of s is a bare `unsigned long`. */
  ghost predicate NoBare(s: string) {
    forall k | 0 <= k <= |s| :: !Bare(s[k..])
  }

  /** How many positions of s are. */
  function BareCount(s: string): nat {
    if s == [] then 0 else (if Bare(s) then 1 else 0) + BareCount(s[1..])
  }

  /** How many positions of s begin with `unsigned long`, bare or not. */
  function Occurrences(s: string): nat {
    if s == [] then 0 else (if StartsWith(s, PATTERN) then 1 else 0) + Occurrences(s[1..])
  }

  lemma NoBareTail(s: string)
    requires s != []
    ensures NoBare(s) <==> !Bare(s) && NoBare(s[1..])
  {
    assert s[0..] == s;
    forall k | 0 <= k <= |s| - 1 ensures s[1..][k..] == s[k + 1..] {
    }
    if !Bare(s) && NoBare(s[1..]) {
      forall k | 0 <= k <= |s| ensures !Bare(s[k..]) {
        if k > 0 {
          assert s[1..][k - 1..] == s[k..];
        }
      }
    }
    if NoBare(s) {
      forall k | 0 <= k <= |s[1..]| ensures !Bare(s[1..][k..]) {
        assert s[1..][k..] == s[k + 1..];
      }
    }
  }

  lemma PrefixTail(w: string, s: string)
    requires w != [] && s != []
    ensures w <= s <==> w[0] == s[0] && w[1..] <= s[1..]
  {
  }

  /** A match begins with a u, so a text without one at the front survives: what
      Rewrite begins with is what its argument begins with. */
  lemma {:induction false} SamePrefix(w: string, s: string)
    requires 'u' !in w
    ensures w <= Rewrite(s) <==> w <= s
    decreases |s|
  {
    if w != [] && s != [] {
      if Bare(s) {
        assert s[0] == 'u' && Rewrite(s)[0] == 'u';
        assert w[0] in w;
      } else {
        assert Rewrite(s)[1..] == Rewrite(s[1..]);
        PrefixTail(w, Rewrite(s));
        PrefixTail(w, s);
        SamePrefix(w[1..], s[1..]);
      }
    }
  }

  lemma NoSecondU()
    ensures 'u' !in PATTERN[1..] && 'u' !in (PATTERN + TAIL)[1..]
    ensures PATTERN[0] == 'u' && (PATTERN + TAIL)[0] == 'u'
  {
  }

  lemma SameFront(s: string)
    requires s != [] && !Bare(s)
    ensures StartsWith(Rewrite(s), PATTERN) <==> StartsWith(s, PATTERN)
    ensures Bare(Rewrite(s)) <==> Bare(s)
  {
    NoSecondU();
    assert Rewrite(s)[0] == s[0] && Rewrite(s)[1..] == Rewrite(s[1..]);
    SamePrefix(PATTERN[1..], s[1..]);
    SamePrefix((PATTERN + TAIL)[1..], s[1..]);
    PrefixTail(PATTERN, s);
    PrefixTail(PATTERN, Rewrite(s));
    PrefixTail(PATTERN + TAIL, s);
    PrefixTail(PATTERN + TAIL, Rewrite(s));
  }

  /** Text without a u before it adds no match. */
  lemma {:induction false} NoMatchBefore(x: string, s: string)
    requires 'u' !in x
    ensures NoBare(x + s) <==> NoBare(s)
    ensures BareCount(x + s) == BareCount(s)
    ensures Occurrences(x + s) == Occurrences(s)
  {
    if x == [] {
      assert x + s == s;
    } else {
      assert (x + s)[1..] == x[1..] + s;
      assert x[0] in x && (x + s)[0] == x[0] != 'u';
      NoSecondU();
      NoMatchBefore(x[1..], s);
      NoBareTail(x + s);
    }
  }

  /** A whole match: one position, then twelve without a u. */
  lemma Matched(s: string, w: string)
    requires w == PATTERN || w == PATTERN + TAIL
    requires w <= s
    ensures NoBare(s) <==> !Bare(s) && NoBare(s[|w|..])
    ensures BareCount(s) == (if Bare(s) then 1 else 0) + BareCount(s[|w|..])
    ensures Occurrences(s) == 1 + Occurrences(s[|w|..])
  {
    NoSecondU();
    assert s[1..] == w[1..] + s[|w|..];
    NoMatchBefore(w[1..], s[|w|..]);
    NoBareTail(s);
    assert PATTERN <= s;
  }

  /** After the rewrite no bare `unsigned long` is left. */
  lemma {:induction false} RewriteLeavesNoBare(s: string)
    ensures NoBare(Rewrite(s))
    decreases |s|
  {
    if s != [] {
      if Bare(s) {
        RewriteLeavesNoBare(s[|PATTERN|..]);
        assert Rewrite(s)[|PATTERN + TAIL|..] == Rewrite(s[|PATTERN|..]);
        Matched(Rewrite(s), PATTERN + TAIL);
      } else {
        RewriteLeavesNoBare(s[1..]);
        SameFront(s);
        assert Rewrite(s)[1..] == Rewrite(s[1..]);
        NoBareTail(Rewrite(s));
      }
    }
  }

  /** Each match makes the text five characters longer, and no occurrence of
      `unsigned long` is lost or made. */
  lemma {:induction false} RewriteCounts(s: string)
    ensures |Rewrite(s)| == |s| + 5 * BareCount(s)
    ensures Occurrences(Rewrite(s)) == Occurrences(s)
    decreases |s|
  {
    if s != [] {
      if Bare(s) {
        RewriteCounts(s[|PATTERN|..]);
        assert Rewrite(s)[|PATTERN + TAIL|..] == Rewrite(s[|PATTERN|..]);
        Matched(Rewrite(s), PATTERN + TAIL);
        Matched(s, PATTERN);
      } else {
        RewriteCounts(s[1..]);
        SameFront(s);
        assert Rewrite(s)[1..] == Rewrite(s[1..]);
      }
    }
  }

  lemma {:induction false} NoBareCount(s: string)
    ensures BareCount(s) == 0 <==> NoBare(s)
  {
    if s != [] {
      NoBareCount(s[1..]);
      NoBareTail(s);
    }
  }

  lemma {:induction false} NoBareIsFixed(s: string)
    requires NoBare(s)
    ensures Rewrite(s) == s
  {
    if s != [] {
      NoBareTail(s);
      NoBareIsFixed(s[1..]);
    }
  }

  /** The rewrite leaves a text alone exactly when it has no bare occurrence. */
  lemma RewriteFixesIff(s: string)
    ensures Rewrite(s) == s <==> NoBare(s)
  {
    if NoBare(s) {
      NoBareIsFixed(s);
    } else {
      NoBareCount(s);
      RewriteCounts(s);
    }
  }

  lemma RewriteIdempotent(s: string)
    ensures Rewrite(Rewrite(s)) == Rewrite(s)
  {
    RewriteLeavesNoBare(s);
    NoBareIsFixed(Rewrite(s));
  }

  /** What the rewrite is, match by match: up to the first bare occurrence nothing
      changes, the occurrence gets its second ` long`, and it goes on behind it. */
  lemma {:induction false} RewriteFirstMatch(before: string, after: string)
    requires Bare(PATTERN + after)
    requires forall k | 0 <= k < |before| :: !Bare((before + (PATTERN + after))[k..])
    ensures Rewrite(before + (PATTERN + after)) == before + (PATTERN + TAIL + Rewrite(after))
    decreases |before|
  {
    var s := before + (PATTERN + after);
    if before == "" {
      assert s == PATTERN + after && s[|PATTERN|..] == after;
    } else {
      assert s[0..] == s && s[1..] == before[1..] + (PATTERN + after);
      forall k | 0 <= k < |before| - 1 ensures !Bare((before[1..] + (PATTERN + after))[k..]) {
        assert s[1..][k..] == s[k + 1..];
      }
      RewriteFirstMatch(before[1..], after);
      var rest := PATTERN + TAIL + Rewrite(after);
      assert [s[0]] + (before[1..] + rest) == before + rest;
    }
  }
}
