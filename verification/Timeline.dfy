/** The timelines of grid: binary searches over ranges and events, and the windows
    cut out with them, against a plain filter. */
module Timeline {

  type Time = real

  datatype DataRange = DataRange(start: Time, end: Time, value: string)

  datatype Event = Event(at: Time, value: string)

  /** A Python slice xs[lo:hi] with non-negative bounds. */
  function Slice<T>(xs: seq<T>, lo: nat, hi: nat): (r: seq<T>)
    ensures forall k | 0 <= k < |r| :: lo + k < |xs| && r[k] == xs[lo + k]
    ensures lo <= |xs| && lo <= hi ==> lo + |r| == if hi < |xs| then hi else |xs|
    ensures lo > |xs| || lo > hi ==> r == []
  {
    var h := if hi < |xs| then hi else |xs|;
    if lo < h then xs[lo..h] else []
  }

  function Filter<T>(p: T -> bool, xs: seq<T>): seq<T> {
    if xs == [] then []
    else Filter(p, xs[..|xs| - 1]) + (if p(xs[|xs| - 1]) then [xs[|xs| - 1]] else [])
  }

  /** A filter whose matches are the positions i..j is a slice. */
  lemma {:induction false} FilterIsSlice<T>(p: T -> bool, xs: seq<T>, i: nat, j: nat)
    requires i <= j <= |xs|
    requires forall k | 0 <= k < |xs| :: p(xs[k]) <==> i <= k < j
    ensures Filter(p, xs) == xs[i..j]
  {
    if xs != [] {
      var front, n := xs[..|xs| - 1], |xs| - 1;
      if j == |xs| {
        FilterIsSlice(p, front, if i <= n then i else n, n);
        assert i <= n ==> xs[i..j] == front[i..n] + [xs[n]];
      } else {
        FilterIsSlice(p, front, i, j);
        assert front[i..j] == xs[i..j];
      }
    }
  }

  lemma JoinSlices<T>(xs: seq<T>, i: nat, j: nat)
    requires i <= j <= |xs|
    ensures xs[i..j] + xs[j..] == xs[i..]
    ensures xs[..i] + xs[i..j] == xs[..j]
    ensures j < |xs| ==> xs[i..j] + Slice(xs[j..], 0, 1) == xs[i..j + 1]
  {
  }

  /** A slice within another one is all of it only if their ends are the same. */
  lemma SameSlice<T>(xs: seq<T>, x: nat, y: nat, i: nat, j: nat)
    requires i <= x && y <= j <= |xs| && x <= y
    ensures xs[x..y] == xs[i..j] <==> x == i && y == j
  {
    assert |xs[x..y]| == y - x && |xs[i..j]| == j - i;
  }

  lemma {:induction false} FilterEmpty<T>(p: T -> bool, xs: seq<T>)
    ensures Filter(p, xs) == [] <==> forall k | 0 <= k < |xs| :: !p(xs[k])
  {
    if xs != [] {
      FilterEmpty(p, xs[..|xs| - 1]);
      assert forall k | 0 <= k < |xs| - 1 :: xs[..|xs| - 1][k] == xs[k];
    }
  }

  lemma {:induction false} FilterMember<T>(p: T -> bool, xs: seq<T>, x: T)
    ensures x in Filter(p, xs) <==> x in xs && p(x)
  {
    if xs != [] {
      FilterMember(p, xs[..|xs| - 1], x);
      assert xs == xs[..|xs| - 1] + [xs[|xs| - 1]];
    }
  }

  // ---------------------------------------------------------------- ranges

  predicate Covers(r: DataRange, key: Time) { r.start <= key <= r.end }

  /** Sorted, each range the right way round, no two overlapping; one may end where
      the next starts. */
  ghost predicate Ordered(rs: seq<DataRange>) {
    && (forall i | 0 <= i < |rs| :: rs[i].start <= rs[i].end)
    && (forall i, j | 0 <= i < j < |rs| :: rs[i].end <= rs[j].start)
  }

  /** No two ranges touch at the key. */
  ghost predicate Unshared(rs: seq<DataRange>, key: Time) {
    forall i, j | 0 <= i < j < |rs| :: !(Covers(rs[i], key) && Covers(rs[j], key))
  }

  ghost predicate Covered(rs: seq<DataRange>, key: Time) {
    exists i | 0 <= i < |rs| :: Covers(rs[i], key)
  }

  /** The search, from position l to position u. */
  function SearchRanges(rs: seq<DataRange>, key: Time, l: int, u: int): int
    requires 0 <= l && u < |rs|
    decreases u - l + 1
  {
    if l > u then -1
    else
      var i := (l + u) / 2;
      if Covers(rs[i], key) then i
      else if key < rs[i].start then SearchRanges(rs, key, l, i - 1)
      else SearchRanges(rs, key, i + 1, u)
  }

  function FindRange(rs: seq<DataRange>, key: Time): int {
    SearchRanges(rs, key, 0, |rs| - 1)
  }

  lemma {:induction false} SearchRangesSound(rs: seq<DataRange>, key: Time, l: int, u: int)
    requires 0 <= l && u < |rs|
    ensures var r := SearchRanges(rs, key, l, u); r == -1 || (l <= r <= u && Covers(rs[r], key))
    decreases u - l + 1
  {
    if l <= u {
      var i := (l + u) / 2;
      SearchRangesSound(rs, key, l, i - 1);
      SearchRangesSound(rs, key, i + 1, u);
    }
  }

  lemma OtherRanges(rs: seq<DataRange>, key: Time, k: nat, i: nat)
    requires k < |rs| && i < |rs| && Ordered(rs) && Covers(rs[k], key)
    ensures i < k && !Covers(rs[i], key) ==> rs[i].end < key
    ensures k < i && !Covers(rs[i], key) ==> key < rs[i].start
  {
  }

  lemma {:induction false} SearchRangesComplete(rs: seq<DataRange>, key: Time, l: int, u: int, k: int)
    requires 0 <= l <= k <= u < |rs| && Ordered(rs) && Covers(rs[k], key)
    ensures SearchRanges(rs, key, l, u) != -1
    decreases u - l + 1
  {
    var i := (l + u) / 2;
    OtherRanges(rs, key, k, i);
    if Covers(rs[i], key) {
    } else if k < i {
      SearchRangesComplete(rs, key, l, i - 1, k);
    } else {
      SearchRangesComplete(rs, key, i + 1, u, k);
    }
  }

  /** On ordered ranges the search finds a range that covers the key, -1 exactly when
      there is none. What it finds covers the key on any list. */
  lemma FindRangeCorrect(rs: seq<DataRange>, key: Time)
    ensures FindRange(rs, key) != -1 ==> 0 <= FindRange(rs, key) < |rs| && Covers(rs[FindRange(rs, key)], key)
    ensures Ordered(rs) ==> (FindRange(rs, key) == -1 <==> !Covered(rs, key))
  {
    SearchRangesSound(rs, key, 0, |rs| - 1);
    if Ordered(rs) && Covered(rs, key) {
      var k :| 0 <= k < |rs| && Covers(rs[k], key);
      SearchRangesComplete(rs, key, 0, |rs| - 1, k);
    }
  }

  /** Of ranges that all cover the key the middle one is found, at every stage of the
      search. */
  lemma FindAmongShared(rs: seq<DataRange>, key: Time, l: nat, u: nat)
    requires l <= u < |rs| && forall i | l <= i <= u :: Covers(rs[i], key)
    ensures SearchRanges(rs, key, l, u) == (l + u) / 2
  {
  }

  function RangeBounds(rs: seq<DataRange>, start: Time, end: Time): (int, int) {
    var s, e := FindRange(rs, start), FindRange(rs, end);
    if s == -1 && e == -1 then (0, 0)
    else if s == -1 then (0, e + 1)
    else if e == -1 then (s, |rs|)
    else (s, e + 1)
  }

  // The ranges against a window: those before it, those that meet it, those after it.

  function EndsBefore(a: Time): DataRange -> bool { (r: DataRange) => r.end < a }

  function Meets(a: Time, b: Time): DataRange -> bool { (r: DataRange) => r.start <= b && a <= r.end }

  function StartsAfter(b: Time): DataRange -> bool { (r: DataRange) => b < r.start }

  function Before(rs: seq<DataRange>, a: Time): seq<DataRange> { Filter(EndsBefore(a), rs) }

  function Meeting(rs: seq<DataRange>, a: Time, b: Time): seq<DataRange> { Filter(Meets(a, b), rs) }

  function After(rs: seq<DataRange>, b: Time): seq<DataRange> { Filter(StartsAfter(b), rs) }

  /** The positions of the window's edges in a list of ordered ranges. */
  ghost predicate IsWindow(rs: seq<DataRange>, a: Time, b: Time, i: nat, j: nat) {
    IsWindowUpTo(rs, |rs|, a, b, i, j)
  }

  ghost predicate IsWindowUpTo(rs: seq<DataRange>, n: nat, a: Time, b: Time, i: nat, j: nat)
    requires n <= |rs|
  {
    && i <= j <= n
    && (forall k | 0 <= k < i :: rs[k].end < a)
    && (forall k | i <= k < j :: rs[k].start <= b && a <= rs[k].end)
    && (forall k | j <= k < n :: b < rs[k].start)
  }

  lemma {:induction false} FindWindow(rs: seq<DataRange>, n: nat, a: Time, b: Time) returns (i: nat, j: nat)
    requires n <= |rs| && Ordered(rs) && a <= b
    ensures IsWindowUpTo(rs, n, a, b, i, j)
  {
    if n == 0 {
      i, j := 0, 0;
    } else {
      var r := rs[n - 1];
      i, j := FindWindow(rs, n - 1, a, b);
      assert forall k | 0 <= k < n - 1 :: rs[k].start <= rs[k].end <= r.start;
      assert j < n - 1 ==> b < rs[j].start;
      if r.end < a {
        i, j := n, n;
      } else if r.start <= b {
        j := n;
      }
    }
  }

  lemma WindowParts(rs: seq<DataRange>, a: Time, b: Time, i: nat, j: nat)
    requires Ordered(rs) && a <= b && IsWindow(rs, a, b, i, j)
    ensures Before(rs, a) == rs[..i] && Meeting(rs, a, b) == rs[i..j] && After(rs, b) == rs[j..]
  {
    FilterIsSlice(EndsBefore(a), rs, 0, i);
    FilterIsSlice(Meets(a, b), rs, i, j);
    FilterIsSlice(StartsAfter(b), rs, j, |rs|);
  }

  /** What get_ranges returns: the ranges of the window when both its ends are
      covered; with one end covered also everything beyond the other end; with none
      covered nothing at all. */
  ghost function Returned(rs: seq<DataRange>, a: Time, b: Time): seq<DataRange> {
    if Covered(rs, a) then
      if Covered(rs, b) then Meeting(rs, a, b) else Meeting(rs, a, b) + After(rs, b)
    else
      if Covered(rs, b) then Before(rs, a) + Meeting(rs, a, b) else []
  }

  lemma WindowStart(rs: seq<DataRange>, a: Time, b: Time, i: nat, j: nat, s: nat)
    requires Ordered(rs) && a <= b && IsWindow(rs, a, b, i, j) && s < |rs| && Covers(rs[s], a)
    ensures i <= s < j
    ensures i == s <==> s == 0 || rs[s - 1].end < a
    ensures Unshared(rs, a) ==> i == s
  {
    assert rs[s].start <= a <= rs[s].end;
    assert a <= rs[i].end;
  }

  lemma WindowEnd(rs: seq<DataRange>, a: Time, b: Time, i: nat, j: nat, e: nat)
    requires Ordered(rs) && a <= b && IsWindow(rs, a, b, i, j) && e < |rs| && Covers(rs[e], b)
    ensures i <= e < j
    ensures j == e + 1 <==> e == |rs| - 1 || b < rs[e + 1].start
    ensures Unshared(rs, b) ==> j == e + 1
  {
    assert rs[e].start <= b <= rs[e].end;
    assert rs[j - 1].start <= b;
  }

  lemma ReturnedIsWindow(rs: seq<DataRange>, a: Time, b: Time, i: nat, j: nat)
    requires a <= b && IsWindow(rs, a, b, i, j) && Ordered(rs)
    ensures Returned(rs, a, b) ==
            if Covered(rs, a) then rs[i..if Covered(rs, b) then j else |rs|]
            else if Covered(rs, b) then rs[..j] else []
  {
    WindowParts(rs, a, b, i, j);
    JoinSlices(rs, i, j);
  }

  /** The bounds lie around the window, in order. */
  lemma RangeBoundsAreWindow(rs: seq<DataRange>, a: Time, b: Time, i: nat, j: nat)
    requires Ordered(rs) && a <= b && IsWindow(rs, a, b, i, j)
    ensures 0 <= RangeBounds(rs, a, b).0 <= RangeBounds(rs, a, b).1 <= |rs|
    ensures Unshared(rs, a) && Unshared(rs, b) ==>
              RangeBounds(rs, a, b) ==
              if Covered(rs, a) then (i, if Covered(rs, b) then j else |rs|)
              else if Covered(rs, b) then (0, j) else (0, 0)
  {
    FindRangeCorrect(rs, a);
    FindRangeCorrect(rs, b);
    var s, e := FindRange(rs, a), FindRange(rs, b);
    if Covered(rs, a) {
      WindowStart(rs, a, b, i, j, s);
    }
    if Covered(rs, b) {
      WindowEnd(rs, a, b, i, j, e);
    }
    if Covered(rs, a) && Covered(rs, b) {
      assert rs[s].start <= a && b <= rs[e].end && rs[s].start <= rs[s].end && rs[e].start <= rs[e].end;
      assert s <= e + 1;
    }
  }

  /** When no two ranges touch at an end of the window. */
  lemma ReturnedIsSlice(rs: seq<DataRange>, a: Time, b: Time)
    requires Ordered(rs) && a <= b
    ensures 0 <= RangeBounds(rs, a, b).0 <= RangeBounds(rs, a, b).1 <= |rs|
    ensures Unshared(rs, a) && Unshared(rs, b) ==>
              rs[RangeBounds(rs, a, b).0..RangeBounds(rs, a, b).1] == Returned(rs, a, b)
  {
    var i, j := FindWindow(rs, |rs|, a, b);
    RangeBoundsAreWindow(rs, a, b, i, j);
    ReturnedIsWindow(rs, a, b, i, j);
  }

  /** What is sliced out. */
  ghost function Sliced(rs: seq<DataRange>, a: Time, b: Time): seq<DataRange>
    requires Ordered(rs) && a <= b
  {
    ReturnedIsSlice(rs, a, b);
    rs[RangeBounds(rs, a, b).0..RangeBounds(rs, a, b).1]
  }

  /** The range found at the start of the window is the first one there. */
  ghost predicate StartsFirst(rs: seq<DataRange>, a: Time) {
    var s := FindRange(rs, a);
    0 < s < |rs| ==> rs[s - 1].end < a
  }

  /** The range found at the end of the window is the last one there. */
  ghost predicate EndsLast(rs: seq<DataRange>, b: Time) {
    var e := FindRange(rs, b);
    0 <= e < |rs| - 1 ==> b < rs[e + 1].start
  }

  ghost predicate NoneStartsAfter(rs: seq<DataRange>, b: Time) {
    forall k | 0 <= k < |rs| :: !(b < rs[k].start)
  }

  ghost predicate NoneEndsBefore(rs: seq<DataRange>, a: Time) {
    forall k | 0 <= k < |rs| :: !(rs[k].end < a)
  }

  ghost predicate NoneStartsWithin(rs: seq<DataRange>, a: Time, b: Time) {
    forall k | 0 <= k < |rs| :: !(a <= rs[k].start <= b)
  }

  lemma BothCovered(rs: seq<DataRange>, a: Time, b: Time, i: nat, j: nat)
    requires Ordered(rs) && a <= b && IsWindow(rs, a, b, i, j) && Covered(rs, a) && Covered(rs, b)
    ensures Sliced(rs, a, b) == rs[i..j] <==> StartsFirst(rs, a) && EndsLast(rs, b)
  {
    FindRangeCorrect(rs, a);
    FindRangeCorrect(rs, b);
    WindowStart(rs, a, b, i, j, FindRange(rs, a));
    WindowEnd(rs, a, b, i, j, FindRange(rs, b));
    SameSlice(rs, FindRange(rs, a), FindRange(rs, b) + 1, i, j);
  }

  lemma StartCovered(rs: seq<DataRange>, a: Time, b: Time, i: nat, j: nat)
    requires Ordered(rs) && a <= b && IsWindow(rs, a, b, i, j) && Covered(rs, a) && !Covered(rs, b)
    ensures Sliced(rs, a, b) == rs[i..j] <==> StartsFirst(rs, a) && NoneStartsAfter(rs, b)
  {
    FindRangeCorrect(rs, a);
    FindRangeCorrect(rs, b);
    var s, n := FindRange(rs, a), |rs|;
    WindowStart(rs, a, b, i, j, s);
    if j == n {
      SameSlice(rs, s, n, i, j);
    } else {
      assert b < rs[n - 1].start && rs[j - 1].start <= b;
      assert rs[s..n][n - s - 1] == rs[n - 1] && rs[i..j][j - i - 1] == rs[j - 1];
    }
  }

  lemma EndCovered(rs: seq<DataRange>, a: Time, b: Time, i: nat, j: nat)
    requires Ordered(rs) && a <= b && IsWindow(rs, a, b, i, j) && !Covered(rs, a) && Covered(rs, b)
    ensures Sliced(rs, a, b) == rs[i..j] <==> NoneEndsBefore(rs, a) && EndsLast(rs, b)
  {
    FindRangeCorrect(rs, a);
    FindRangeCorrect(rs, b);
    var e := FindRange(rs, b);
    WindowEnd(rs, a, b, i, j, e);
    if i == 0 {
      SameSlice(rs, 0, e + 1, i, j);
    } else {
      assert rs[0].end < a <= rs[i].end;
      assert rs[0..e + 1][0] == rs[0] && rs[i..j][0] == rs[i];
    }
  }

  lemma NoneCovered(rs: seq<DataRange>, a: Time, b: Time, i: nat, j: nat)
    requires Ordered(rs) && a <= b && IsWindow(rs, a, b, i, j) && !Covered(rs, a) && !Covered(rs, b)
    ensures Sliced(rs, a, b) == rs[i..j] <==> NoneStartsWithin(rs, a, b)
  {
    FindRangeCorrect(rs, a);
    FindRangeCorrect(rs, b);
    assert i < j ==> !Covers(rs[i], a) && rs[i].start <= b && a <= rs[i].end;
  }

  /** When get_ranges is exact, for all ordered lists and all windows: at a covered
      end the range found must be the outermost one there, beyond an uncovered end
      there must be nothing, and with neither end covered no range may start in the
      window. */
  lemma RangesExactIff(rs: seq<DataRange>, a: Time, b: Time)
    requires Ordered(rs) && a <= b
    ensures Sliced(rs, a, b) == Meeting(rs, a, b) <==>
              if Covered(rs, a) then StartsFirst(rs, a) && if Covered(rs, b) then EndsLast(rs, b) else NoneStartsAfter(rs, b)
              else if Covered(rs, b) then NoneEndsBefore(rs, a) && EndsLast(rs, b)
              else NoneStartsWithin(rs, a, b)
  {
    var i, j := FindWindow(rs, |rs|, a, b);
    WindowParts(rs, a, b, i, j);
    if Covered(rs, a) && Covered(rs, b) {
      BothCovered(rs, a, b, i, j);
    } else if Covered(rs, a) {
      StartCovered(rs, a, b, i, j);
    } else if Covered(rs, b) {
      EndCovered(rs, a, b, i, j);
    } else {
      NoneCovered(rs, a, b, i, j);
    }
  }

  /** At a point that no two ranges share the range found is the outermost one. */
  lemma UnsharedEnds(rs: seq<DataRange>, t: Time)
    requires Ordered(rs) && Unshared(rs, t)
    ensures StartsFirst(rs, t) && EndsLast(rs, t)
  {
    FindRangeCorrect(rs, t);
    var s := FindRange(rs, t);
    if Covered(rs, t) {
      assert Covers(rs[s], t);
      assert s > 0 ==> rs[s - 1].end <= rs[s].start && !Covers(rs[s - 1], t);
      assert s < |rs| - 1 ==> rs[s].end <= rs[s + 1].start && !Covers(rs[s + 1], t);
    }
  }

  /** Nothing that meets the window is dropped if an end of it is covered and no two
      ranges touch at its ends. */
  lemma NothingDropped(rs: seq<DataRange>, a: Time, b: Time, r: DataRange)
    requires Ordered(rs) && a <= b && (Covered(rs, a) || Covered(rs, b))
    requires Unshared(rs, a) && Unshared(rs, b)
    ensures r in rs && r.start <= b && a <= r.end ==> r in Sliced(rs, a, b)
  {
    ReturnedIsSlice(rs, a, b);
    FilterMember(Meets(a, b), rs, r);
  }

  /** A window that reaches into the gaps on both sides of a range loses it. */
  lemma RangeInsideWindowIsLost(r: DataRange, a: Time, b: Time)
    requires a < r.start <= r.end < b
    ensures Ordered([r]) && Meeting([r], a, b) == [r] && Sliced([r], a, b) == []
  {
    FilterIsSlice(Meets(a, b), [r], 0, 1);
  }

  /** So does a window that is one of three touching ranges lose the other two,
      although both its ends are covered. */
  lemma TouchingRangesAreLost(w: Time, x: Time, y: Time, z: Time)
    requires w <= x <= y <= z
    ensures var rs := [DataRange(w, x, ""), DataRange(x, y, ""), DataRange(y, z, "")];
            Ordered(rs) && Covered(rs, x) && Covered(rs, y) && Meeting(rs, x, y) == rs && Sliced(rs, x, y) == [rs[1]]
  {
    var rs := [DataRange(w, x, ""), DataRange(x, y, ""), DataRange(y, z, "")];
    FilterIsSlice(Meets(x, y), rs, 0, 3);
    assert Covers(rs[1], x) && Covers(rs[1], y);
    assert FindRange(rs, x) == 1 && FindRange(rs, y) == 1;
  }

  class TimelineDataRange {
    var ranges: seq<DataRange>

    constructor ()
      ensures ranges == []
    {
      ranges := [];
    }

    method AddRange(range: DataRange)
      modifies this
      ensures ranges == old(ranges) + [range]
    {
      ranges := ranges + [range];
    }

    method Search(key: Time) returns (r: int)
      ensures r == FindRange(ranges, key)
    {
      var l, u := 0, |ranges| - 1;
      while l <= u
        invariant 0 <= l && u < |ranges|
        invariant FindRange(ranges, key) == SearchRanges(ranges, key, l, u)
        decreases u - l + 1
      {
        var i := (l + u) / 2;
        if key >= ranges[i].start && key <= ranges[i].end {
          return i;
        } else if key < ranges[i].start {
          u := i - 1;
        } else {
          l := i + 1;
        }
      }
      return -1;
    }

    /** On any list what is returned is the slice that the bounds describe; on
        ordered ranges that do not touch at the window's ends it is the part of the
        list that Returned says. */
    method GetRanges(start: Time, end: Time) returns (rs: seq<DataRange>)
      ensures 0 <= RangeBounds(ranges, start, end).0 && 0 <= RangeBounds(ranges, start, end).1
      ensures rs == Slice(ranges, RangeBounds(ranges, start, end).0, RangeBounds(ranges, start, end).1)
      ensures Ordered(ranges) && start <= end ==> rs == Sliced(ranges, start, end)
      ensures Ordered(ranges) && start <= end && Unshared(ranges, start) && Unshared(ranges, end) ==>
                rs == Returned(ranges, start, end)
    {
      var s := Search(start);
      var e := Search(end);
      FindRangeCorrect(ranges, start);
      FindRangeCorrect(ranges, end);
      if Ordered(ranges) && start <= end {
        ReturnedIsSlice(ranges, start, end);
      }
      if s == -1 && e == -1 {
        return [];
      } else if s == -1 {
        return Slice(ranges, 0, e + 1);
      } else if e == -1 {
        return Slice(ranges, s, |ranges|);
      } else {
        return Slice(ranges, s, e + 1);
      }
    }

    method GetRangesBounds(start: Time, end: Time) returns (lo: int, hi: int)
      ensures (lo, hi) == RangeBounds(ranges, start, end)
      ensures 0 <= lo && 0 <= hi <= |ranges|
      ensures Ordered(ranges) && start <= end ==> lo <= hi && ranges[lo..hi] == Sliced(ranges, start, end)
    {
      var s := Search(start);
      var e := Search(end);
      FindRangeCorrect(ranges, start);
      FindRangeCorrect(ranges, end);
      if Ordered(ranges) && start <= end {
        ReturnedIsSlice(ranges, start, end);
      }
      if s == -1 && e == -1 {
        return 0, 0;
      } else if s == -1 {
        return 0, e + 1;
      } else if e == -1 {
        return s, |ranges|;
      } else {
        return s, e + 1;
      }
    }

    /** The hull of the ranges. */
    method GetBounds() returns (lo: Time, hi: Time)
      ensures ranges == [] ==> lo == 0.0 && hi == 0.0
      ensures Ordered(ranges) && ranges != [] ==>
                && (forall k | 0 <= k < |ranges| :: lo <= ranges[k].start && ranges[k].end <= hi)
                && Covered(ranges, lo) && Covered(ranges, hi)
    {
      if |ranges| > 0 {
        lo, hi := ranges[0].start, ranges[|ranges| - 1].end;
        if Ordered(ranges) {
          assert Covers(ranges[0], lo) && Covers(ranges[|ranges| - 1], hi);
        }
      } else {
        lo, hi := 0.0, 0.0;
      }
    }
  }

  // ---------------------------------------------------------------- events

  /** In order of time; several events may share an instant. */
  ghost predicate Sorted(es: seq<Event>) {
    forall i, j | 0 <= i < j < |es| :: es[i].at <= es[j].at
  }

  /** At most one event lies at the instant. */
  ghost predicate Unique(es: seq<Event>, t: Time) {
    forall i, j | 0 <= i < j < |es| :: !(es[i].at == t && es[j].at == t)
  }

  /** The search, from position l to position u: a match, or where it would be. */
  function SearchEvents(es: seq<Event>, key: Time, l: int, u: int): int
    requires 0 <= l && u < |es|
    decreases u - l + 1
  {
    if l > u then l
    else
      var i := (l + u) / 2;
      if key == es[i].at then i
      else if key < es[i].at then SearchEvents(es, key, l, i - 1)
      else SearchEvents(es, key, i + 1, u)
  }

  function FindEvent(es: seq<Event>, key: Time): int {
    SearchEvents(es, key, 0, |es| - 1)
  }

  lemma {:induction false} SearchEventsRange(es: seq<Event>, key: Time, l: int, u: int)
    requires 0 <= l <= u + 1 && u < |es|
    ensures l <= SearchEvents(es, key, l, u) <= u + 1
    decreases u - l + 1
  {
    if l <= u {
      var i := (l + u) / 2;
      SearchEventsRange(es, key, l, i - 1);
      SearchEventsRange(es, key, i + 1, u);
    }
  }

  /** k events come before the key. */
  ghost predicate IsPosition(es: seq<Event>, key: Time, k: nat) {
    && k <= |es|
    && (forall i | 0 <= i < k :: es[i].at < key)
    && (forall i | k <= i < |es| :: key <= es[i].at)
  }

  lemma {:induction false} SearchEventsPlace(es: seq<Event>, key: Time, l: int, u: int)
    requires 0 <= l <= u + 1 && u < |es| && Sorted(es)
    requires forall i | 0 <= i < l :: es[i].at < key
    requires forall i | u < i < |es| :: key < es[i].at
    ensures var r := SearchEvents(es, key, l, u);
            0 <= r && if HasEventAt(es, key) then r < |es| && es[r].at == key else IsPosition(es, key, r)
    decreases u - l + 1
  {
    if l <= u {
      var i := (l + u) / 2;
      if key < es[i].at {
        SearchEventsPlace(es, key, l, i - 1);
      } else if key > es[i].at {
        SearchEventsPlace(es, key, i + 1, u);
      }
    }
  }

  /** On sorted events the search returns a match if there is one and the insertion
      point otherwise: how many events come before the key, unless several lie at it. */
  lemma FindEventCorrect(es: seq<Event>, key: Time)
    ensures 0 <= FindEvent(es, key) <= |es|
    ensures Sorted(es) && HasEventAt(es, key) ==> FindEvent(es, key) < |es| && es[FindEvent(es, key)].at == key
    ensures Sorted(es) && (!HasEventAt(es, key) || Unique(es, key)) ==> IsPosition(es, key, FindEvent(es, key))
  {
    SearchEventsRange(es, key, 0, |es| - 1);
    if Sorted(es) {
      SearchEventsPlace(es, key, 0, |es| - 1);
      if HasEventAt(es, key) && Unique(es, key) {
        UniquePosition(es, key, FindEvent(es, key));
      }
    }
  }

  /** Of events that all lie at the key the middle one is found, at every stage of the
      search. */
  lemma FindAmongSimultaneous(es: seq<Event>, key: Time, l: nat, u: nat)
    requires l <= u < |es| && forall i | l <= i <= u :: es[i].at == key
    ensures SearchEvents(es, key, l, u) == (l + u) / 2
  {
  }

  lemma UniquePosition(es: seq<Event>, key: Time, r: nat)
    requires Sorted(es) && Unique(es, key) && r < |es| && es[r].at == key
    ensures IsPosition(es, key, r)
  {
  }

  function Within(a: Time, b: Time): Event -> bool { (e: Event) => a <= e.at <= b }

  function Later(b: Time): Event -> bool { (e: Event) => b < e.at }

  function InWindow(es: seq<Event>, a: Time, b: Time): seq<Event> { Filter(Within(a, b), es) }

  ghost predicate HasEventAt(es: seq<Event>, t: Time) {
    exists i | 0 <= i < |es| :: es[i].at == t
  }

  /** What get_events returns: the events of the closed window and, unless an event
      lies exactly on its end, the one that follows. */
  ghost function ReturnedEvents(es: seq<Event>, a: Time, b: Time): seq<Event> {
    InWindow(es, a, b) + (if HasEventAt(es, b) then [] else Slice(Filter(Later(b), es), 0, 1))
  }

  lemma WindowEndingAtEvent(es: seq<Event>, a: Time, b: Time, s: nat, e: nat)
    requires Sorted(es) && Unique(es, b) && IsPosition(es, a, s) && IsPosition(es, b, e)
    requires s <= e < |es| && es[e].at == b
    ensures es[s..e + 1] == ReturnedEvents(es, a, b)
  {
    forall k | 0 <= k < |es| ensures a <= es[k].at <= b <==> s <= k < e + 1 {
      assert k > e ==> es[e].at <= es[k].at && es[k].at != b;
      assert k < s ==> es[k].at < a;
    }
    FilterIsSlice(Within(a, b), es, s, e + 1);
    assert HasEventAt(es, b);
  }

  lemma WindowEndingInGap(es: seq<Event>, a: Time, b: Time, s: nat, e: nat)
    requires IsPosition(es, a, s) && IsPosition(es, b, e) && s <= e && !HasEventAt(es, b)
    requires forall i | e <= i < |es| :: b < es[i].at
    ensures Slice(es, s, e + 1) == ReturnedEvents(es, a, b)
  {
    EventsInGap(es, a, b, s, e);
    JoinSlices(es, s, e);
  }

  lemma EventsInGap(es: seq<Event>, a: Time, b: Time, s: nat, e: nat)
    requires IsPosition(es, a, s) && IsPosition(es, b, e) && s <= e
    requires forall i | e <= i < |es| :: b < es[i].at
    ensures InWindow(es, a, b) == es[s..e] && Filter(Later(b), es) == es[e..]
  {
    FilterIsSlice(Within(a, b), es, s, e);
    FilterIsSlice(Later(b), es, e, |es|);
  }

  lemma ReturnedEventsIsSlice(es: seq<Event>, a: Time, b: Time, s: nat, e: nat)
    requires Sorted(es) && Unique(es, b) && a <= b && IsPosition(es, a, s) && IsPosition(es, b, e)
    ensures Slice(es, s, e + 1) == ReturnedEvents(es, a, b)
  {
    PositionsOrdered(es, a, b, s, e);
    if e < |es| && es[e].at == b {
      WindowEndingAtEvent(es, a, b, s, e);
    } else {
      NoEventAt(es, b, e);
      WindowEndingInGap(es, a, b, s, e);
    }
  }

  lemma PositionsOrdered(es: seq<Event>, a: Time, b: Time, s: nat, e: nat)
    requires a <= b && IsPosition(es, a, s) && IsPosition(es, b, e)
    ensures s <= e
  {
    assert e < |es| ==> b <= es[e].at;
  }

  lemma NoEventAt(es: seq<Event>, b: Time, e: nat)
    requires Sorted(es) && IsPosition(es, b, e) && (e < |es| ==> es[e].at != b)
    ensures !HasEventAt(es, b)
    ensures forall i | e <= i < |es| :: b < es[i].at
  {
  }

  ghost predicate NoneLater(es: seq<Event>, b: Time) {
    forall i | 0 <= i < |es| :: !(b < es[i].at)
  }

  /** Where at most one event lies at each end of the window, get_events is exact if
      and only if one lies on the window's end or none comes later. */
  lemma ReturnedEventsExactIff(es: seq<Event>, a: Time, b: Time)
    ensures ReturnedEvents(es, a, b) == InWindow(es, a, b) <==> HasEventAt(es, b) || NoneLater(es, b)
  {
    FilterEmpty(Later(b), es);
  }

  // Windows with several events at an end.

  /** Positions i..j hold the events of the window. */
  ghost predicate HoldsWindow(es: seq<Event>, n: nat, a: Time, b: Time, i: nat, j: nat)
    requires n <= |es|
  {
    && i <= j <= n
    && (forall k | 0 <= k < i :: es[k].at < a)
    && (forall k | i <= k < j :: a <= es[k].at <= b)
    && (forall k | j <= k < n :: b < es[k].at)
  }

  lemma {:induction false} FindEventWindow(es: seq<Event>, n: nat, a: Time, b: Time) returns (i: nat, j: nat)
    requires n <= |es| && Sorted(es) && a <= b
    ensures HoldsWindow(es, n, a, b, i, j)
  {
    if n == 0 {
      i, j := 0, 0;
    } else {
      var e := es[n - 1];
      i, j := FindEventWindow(es, n - 1, a, b);
      assert forall k | 0 <= k < n - 1 :: es[k].at <= e.at;
      assert j < n - 1 ==> b < es[j].at;
      if e.at < a {
        i, j := n, n;
      } else if e.at <= b {
        j := n;
      }
    }
  }

  /** Of the events at the start of the window the first one was found. */
  ghost predicate BeginsFirst(es: seq<Event>, a: Time) {
    var s := FindEvent(es, a);
    HasEventAt(es, a) && 0 < s <= |es| ==> es[s - 1].at < a
  }

  /** Of the events at the end of the window the last one was found. */
  ghost predicate FinishesLast(es: seq<Event>, b: Time) {
    var e := FindEvent(es, b);
    0 <= e < |es| - 1 ==> b < es[e + 1].at
  }

  lemma WindowBegin(es: seq<Event>, a: Time, b: Time, i: nat, j: nat)
    requires Sorted(es) && a <= b && HoldsWindow(es, |es|, a, b, i, j)
    ensures i <= FindEvent(es, a) <= j
    ensures FindEvent(es, a) == i <==> BeginsFirst(es, a)
  {
    FindEventCorrect(es, a);
    var s := FindEvent(es, a);
    assert s < |es| ==> es[s].at >= a;
    assert i < |es| ==> es[i].at >= a;
    assert j < |es| ==> b < es[j].at;
    assert 0 < s ==> es[s - 1].at <= a;
  }

  lemma WindowFinish(es: seq<Event>, a: Time, b: Time, i: nat, j: nat)
    requires Sorted(es) && a <= b && HoldsWindow(es, |es|, a, b, i, j)
    ensures HasEventAt(es, b) ==> i <= FindEvent(es, b) < j
    ensures HasEventAt(es, b) ==> (FindEvent(es, b) + 1 == j <==> FinishesLast(es, b))
    ensures !HasEventAt(es, b) ==> FindEvent(es, b) == j
    ensures NoneLater(es, b) <==> j == |es|
  {
    FindEventCorrect(es, b);
    var e := FindEvent(es, b);
    assert j < |es| ==> b < es[j].at;
    assert i < j ==> es[i].at <= b && es[j - 1].at <= b;
    assert e < |es| ==> es[e].at >= b;
    assert 0 < e ==> es[e - 1].at <= b;
  }

  lemma WindowOrdered(es: seq<Event>, a: Time, b: Time)
    requires Sorted(es) && a <= b
    ensures 0 <= FindEvent(es, a) <= FindEvent(es, b) <= |es|
  {
    FindEventCorrect(es, a);
    FindEventCorrect(es, b);
    var s, e := FindEvent(es, a), FindEvent(es, b);
    if a < b {
      assert e < |es| ==> b <= es[e].at;
      assert s < |es| ==> a <= es[s].at;
      assert 0 < s ==> es[s - 1].at <= a;
    }
  }

  /** get_events on any sorted list, whatever events share an instant: it is exact if
      and only if the search hit the first of the events at the start of the window
      and the last of those at its end, or, with none there, no event comes later. */
  lemma EventsExactIff(es: seq<Event>, a: Time, b: Time)
    requires Sorted(es) && a <= b
    ensures 0 <= FindEvent(es, a) && 0 <= FindEvent(es, b)
    ensures Slice(es, FindEvent(es, a), FindEvent(es, b) + 1) == InWindow(es, a, b) <==>
              BeginsFirst(es, a) && if HasEventAt(es, b) then FinishesLast(es, b) else NoneLater(es, b)
  {
    var i, j := FindEventWindow(es, |es|, a, b);
    FilterIsSlice(Within(a, b), es, i, j);
    WindowOrdered(es, a, b);
    if HasEventAt(es, b) {
      EventAtEnd(es, a, b, i, j);
    } else {
      NoEventAtEnd(es, a, b, i, j);
    }
  }

  lemma EventAtEnd(es: seq<Event>, a: Time, b: Time, i: nat, j: nat)
    requires Sorted(es) && a <= b && HoldsWindow(es, |es|, a, b, i, j) && HasEventAt(es, b)
    ensures 0 <= FindEvent(es, a) && 0 <= FindEvent(es, b)
    ensures Slice(es, FindEvent(es, a), FindEvent(es, b) + 1) == es[i..j] <==> BeginsFirst(es, a) && FinishesLast(es, b)
  {
    WindowBegin(es, a, b, i, j);
    WindowFinish(es, a, b, i, j);
    WindowOrdered(es, a, b);
    SameSlice(es, FindEvent(es, a), FindEvent(es, b) + 1, i, j);
  }

  lemma NoEventAtEnd(es: seq<Event>, a: Time, b: Time, i: nat, j: nat)
    requires Sorted(es) && a <= b && HoldsWindow(es, |es|, a, b, i, j) && !HasEventAt(es, b)
    ensures 0 <= FindEvent(es, a) && 0 <= FindEvent(es, b)
    ensures Slice(es, FindEvent(es, a), FindEvent(es, b) + 1) == es[i..j] <==> BeginsFirst(es, a) && NoneLater(es, b)
  {
    WindowBegin(es, a, b, i, j);
    WindowFinish(es, a, b, i, j);
    if j == |es| {
      SameSlice(es, FindEvent(es, a), |es|, i, j);
    } else {
      OneTooMany(es, FindEvent(es, a), i, j, b);
    }
  }

  lemma OneTooMany(es: seq<Event>, s: nat, i: nat, j: nat, b: Time)
    requires i <= s <= j < |es| && b < es[j].at
    requires forall k | i <= k < j :: es[k].at <= b
    ensures es[s..j + 1] != es[i..j]
  {
    assert es[s..j + 1][j - s] == es[j];
    assert i < j ==> es[i..j][j - i - 1] == es[j - 1];
  }

  /** A window of one instant gets exactly one event if some lie there, so it is
      exact only if there is a single one; with none it gets the next one, if any. */
  lemma InstantWindow(es: seq<Event>, t: Time)
    requires Sorted(es)
    ensures 0 <= FindEvent(es, t) <= |es|
    ensures HasEventAt(es, t) ==>
              FindEvent(es, t) < |es| && es[FindEvent(es, t)].at == t &&
              Slice(es, FindEvent(es, t), FindEvent(es, t) + 1) == [es[FindEvent(es, t)]]
    ensures Slice(es, FindEvent(es, t), FindEvent(es, t) + 1) == InWindow(es, t, t) <==>
              if HasEventAt(es, t) then Unique(es, t) else NoneLater(es, t)
  {
    FindEventCorrect(es, t);
    EventsExactIff(es, t, t);
    var r := FindEvent(es, t);
    if HasEventAt(es, t) {
      SingleEvent(es, t, r);
    }
  }

  lemma SingleEvent(es: seq<Event>, t: Time, r: nat)
    requires Sorted(es) && r < |es| && es[r].at == t
    ensures Unique(es, t) <==> (0 < r ==> es[r - 1].at < t) && (r < |es| - 1 ==> t < es[r + 1].at)
  {
    assert 0 < r ==> es[r - 1].at <= t;
    assert r < |es| - 1 ==> t <= es[r + 1].at;
  }

  class TimelineEvent {
    var events: seq<Event>

    constructor ()
      ensures events == []
    {
      events := [];
    }

    method AddEvent(event: Event)
      modifies this
      ensures events == old(events) + [event]
    {
      events := events + [event];
    }

    method Search(key: Time) returns (r: int)
      ensures r == FindEvent(events, key)
    {
      var l, u := 0, |events| - 1;
      while l <= u
        invariant 0 <= l && u < |events|
        invariant FindEvent(events, key) == SearchEvents(events, key, l, u)
        decreases u - l + 1
      {
        var i := (l + u) / 2;
        if key == events[i].at {
          return i;
        } else if key < events[i].at {
          u := i - 1;
        } else {
          l := i + 1;
        }
      }
      return l;
    }

    method GetEvents(start: Time, end: Time) returns (es: seq<Event>)
      ensures 0 <= FindEvent(events, start) && 0 <= FindEvent(events, end)
      ensures es == Slice(events, FindEvent(events, start), FindEvent(events, end) + 1)
      ensures Sorted(events) && Unique(events, start) && Unique(events, end) && start <= end ==>
                es == ReturnedEvents(events, start, end)
    {
      var s := Search(start);
      var e := Search(end);
      FindEventCorrect(events, start);
      FindEventCorrect(events, end);
      if Sorted(events) && Unique(events, start) && Unique(events, end) && start <= end {
        ReturnedEventsIsSlice(events, start, end, s, e);
      }
      es := Slice(events, s, e + 1);
    }

    method GetEventsBounds(start: Time, end: Time) returns (lo: int, hi: int)
      ensures (lo, hi) == (FindEvent(events, start), FindEvent(events, end) + 1)
      ensures 0 <= lo && 0 < hi <= |events| + 1
      ensures Sorted(events) && Unique(events, start) && Unique(events, end) && start <= end ==>
                Slice(events, lo, hi) == ReturnedEvents(events, start, end)
    {
      lo := Search(start);
      var e := Search(end);
      FindEventCorrect(events, start);
      FindEventCorrect(events, end);
      if Sorted(events) && Unique(events, start) && Unique(events, end) && start <= end {
        ReturnedEventsIsSlice(events, start, end, lo, e);
      }
      hi := e + 1;
    }

    method GetBounds() returns (lo: Time, hi: Time)
      ensures events == [] ==> lo == 0.0 && hi == 0.0
      ensures Sorted(events) && events != [] ==>
                && (forall k | 0 <= k < |events| :: lo <= events[k].at <= hi)
                && HasEventAt(events, lo) && HasEventAt(events, hi)
    {
      if |events| > 0 {
        lo, hi := events[0].at, events[|events| - 1].at;
      } else {
        lo, hi := 0.0, 0.0;
      }
    }
  }
}
