/** When the search records a path twice, which nothing undoes: Uniquefy sorts and
    de-duplicates a copy. */
module RepeatedPaths {
  import opened TypeGraph

  /** Edges i and j of the walk's end are the same, and lead off the walk. */
  ghost predicate Fork(g: Graph, root: TypeId, w: Walk, avoid: set<TypeId>, i: nat, j: nat) {
    var es := g.Edges(g.End(root, w));
    && g.Simple(root, w, avoid)
    && i < j < |es| && es[i] == es[j] && es[i].target < |g.types|
    && es[i].target !in g.Nodes(root, w) && es[i].target !in avoid
  }

  // ---------------------------------------------------------------- a fork repeats a record

  /** `v` is `w` with one more edge. */
  ghost predicate Extends(g: Graph, t: TypeId, v: Walk, w: Walk, avoid: set<TypeId>, e: Edge) {
    g.Simple(t, v, avoid) && g.End(t, v) == e.target && g.Elements(t, v) == g.Elements(t, w) + [e.element]
  }

  /** A walk prolonged by one edge. */
  lemma {:induction false} Prolong(g: Graph, t: TypeId, w: Walk, avoid: set<TypeId>, u: TypeId, k: nat)
    requires g.Simple(t, w, avoid) && u == g.End(t, w) && k < |g.Edges(u)|
    requires g.Edges(u)[k].target < |g.types| && g.Edges(u)[k].target !in avoid
    requires g.Edges(u)[k].target !in g.Nodes(t, w)
    ensures Extends(g, t, w + [k], w, avoid, g.Edges(u)[k])
    decreases |w|
  {
    if w == [] {
      OneEdge(g, t, avoid, k);
      assert [] + [k] == [k];
    } else {
      FirstEdge(g, t, w, avoid);
      Prolong(g, g.Edges(t)[w[0]].target, w[1..], avoid + {t}, u, k);
      ProlongStep(g, t, w, avoid, g.Edges(u)[k], k);
    }
  }

  lemma ProlongStep(g: Graph, t: TypeId, w: Walk, avoid: set<TypeId>, e: Edge, k: nat)
    requires w != [] && g.Simple(t, w, avoid) && w[0] < |g.Edges(t)|
    requires Extends(g, g.Edges(t)[w[0]].target, w[1..] + [k], w[1..], avoid + {t}, e)
    ensures Extends(g, t, w + [k], w, avoid, e)
  {
    var first := g.Edges(t)[w[0]];
    FirstEdge(g, t, w, avoid);
    AddFirstEdge(g, t, w[0], w[1..] + [k], avoid);
    HeadAndTail(w, k);
    ConcatAssociates([first.element], g.Elements(first.target, w[1..]), [e.element]);
  }

  lemma HeadAndTail(w: Walk, k: nat)
    requires w != []
    ensures [w[0]] + (w[1..] + [k]) == w + [k]
  {
  }

  lemma OneEdge(g: Graph, t: TypeId, avoid: set<TypeId>, k: nat)
    requires t < |g.types| && t !in avoid && k < |g.Edges(t)|
    requires var u := g.Edges(t)[k].target; u < |g.types| && u != t && u !in avoid
    ensures Extends(g, t, [k], [], avoid, g.Edges(t)[k])
  {
    var e := g.Edges(t)[k];
    assert g.Nodes(e.target, []) == [e.target] && g.Simple(e.target, [], avoid + {t});
    AddFirstEdge(g, t, k, [], avoid);
    assert [k] + [] == [k];
    assert g.Elements(e.target, []) == [] && [e.element] + [] == [] + [e.element];
    assert g.Elements(t, []) == [];
  }

  lemma FirstEdge(g: Graph, t: TypeId, w: Walk, avoid: set<TypeId>)
    requires w != [] && g.Simple(t, w, avoid)
    ensures w[0] < |g.Edges(t)| && t !in avoid && t < |g.types|
    ensures var next := g.Edges(t)[w[0]].target;
            && g.Simple(next, w[1..], avoid + {t})
            && g.Nodes(t, w) == [t] + g.Nodes(next, w[1..])
            && g.End(t, w) == g.End(next, w[1..])
            && g.Elements(t, w) == [g.Edges(t)[w[0]].element] + g.Elements(next, w[1..])
  {
    assert g.Nodes(t, w)[0] == t;
    g.SimpleStep(t, w, avoid);
  }

  lemma AddFirstEdge(g: Graph, t: TypeId, k: nat, v: Walk, avoid: set<TypeId>)
    requires t < |g.types| && t !in avoid && k < |g.Edges(t)| && g.Simple(g.Edges(t)[k].target, v, avoid + {t})
    ensures g.Simple(t, [k] + v, avoid)
    ensures var next := g.Edges(t)[k].target;
            && g.Nodes(t, [k] + v) == [t] + g.Nodes(next, v)
            && g.End(t, [k] + v) == g.End(next, v)
            && g.Elements(t, [k] + v) == [g.Edges(t)[k].element] + g.Elements(next, v)
  {
    assert ([k] + v)[1..] == v;
    g.SimpleStep(t, [k] + v, avoid);
  }

  /** Two simple walks with one record make the output repeat it. */
  lemma TwoWalksRepeat(g: Graph, root: TypeId, v: Walk, w: Walk)
    requires v != w && g.Simple(root, v, {}) && g.Simple(root, w, {})
    requires g.RecordOf(root, [], v) == g.RecordOf(root, [], w)
    ensures !Distinct(g.Records(root, [], {}))
  {
    g.WalksExact(root, {}, v);
    g.WalksExact(root, {}, w);
    g.RecordsAreWalks(root, [], {});
    MapRepeats(g.Recorder(root, []), g.Walks(root, {}), v, w);
  }

  lemma MapRepeats<A, B>(f: A -> B, xs: seq<A>, x: A, y: A)
    requires x in xs && y in xs && x != y && f(x) == f(y)
    ensures !Distinct(Map(f, xs))
  {
    var i :| 0 <= i < |xs| && xs[i] == x;
    var j :| 0 <= j < |xs| && xs[j] == y;
    assert Map(f, xs)[i] == Map(f, xs)[j];
  }

  /** Wherever two equal edges fork off a simple walk, a record is repeated. */
  lemma ParallelEdgesRepeat(g: Graph, root: TypeId, w: Walk, i: nat, j: nat)
    requires Fork(g, root, w, {}, i, j)
    ensures !Distinct(g.Records(root, [], {}))
  {
    Prolong(g, root, w, {}, g.End(root, w), i);
    Prolong(g, root, w, {}, g.End(root, w), j);
    assert (w + [i])[|w|] != (w + [j])[|w|];
    TwoWalksRepeat(g, root, w + [i], w + [j]);
  }

  // ---------------------------------------------------------------- names

  /** A segment of a path; "[i]" is reserved for the items of a container. */
  predicate Segment(s: string) { '/' !in s && s != "[i]" }

  ghost predicate Element(s: string) {
    Segment(s) || exists name :: Segment(name) && s == name + "/[i]"
  }

  ghost predicate AllElements(path: seq<string>) {
    forall k | 0 <= k < |path| :: Element(path[k])
  }

  lemma NoLaterSlash(x: string, a: string, k: nat)
    requires '/' !in a && k < |x + "/" + a| && (x + "/" + a)[k] == '/'
    ensures k <= |x|
  {
    var s := x + "/" + a;
    assert forall m | |x| < m < |s| :: s[m] == a[m - |x| - 1] && a[m - |x| - 1] in a;
  }

  lemma SplitAtLastSlash(x: string, a: string, y: string, b: string)
    requires '/' !in a && '/' !in b && x + "/" + a == y + "/" + b
    ensures x == y && a == b
  {
    var s, t := x + "/" + a, y + "/" + b;
    assert s[|x|] == '/' && t[|y|] == '/';
    NoLaterSlash(x, a, |y|);
    NoLaterSlash(y, b, |x|);
    assert s[..|x|] == x && t[..|y|] == y;
    assert s[|x| + 1..] == a && t[|y| + 1..] == b;
  }

  lemma SameElement(x: string, e: string, y: string, f: string)
    requires Element(e) && Element(f) && x + "/" + e == y + "/" + f
    ensures x == y && e == f
  {
    if Segment(e) && Segment(f) {
      SplitAtLastSlash(x, e, y, f);
    } else if Segment(e) {
      SegmentIsNoItem(x, e, y, f);
    } else if Segment(f) {
      SegmentIsNoItem(y, f, x, e);
    } else {
      var m :| Segment(m) && e == m + "/[i]";
      var n :| Segment(n) && f == n + "/[i]";
      BeforeItem(x, m);
      BeforeItem(y, n);
      SplitAtLastSlash(x + "/" + m, "[i]", y + "/" + n, "[i]");
      SplitAtLastSlash(x, m, y, n);
    }
  }

  lemma BeforeItem(x: string, m: string)
    ensures x + "/" + (m + "/[i]") == (x + "/" + m) + "/" + "[i]"
  {
  }

  lemma SegmentIsNoItem(x: string, e: string, y: string, f: string)
    requires Segment(e) && !Segment(f) && Element(f)
    ensures x + "/" + e != y + "/" + f
  {
    var n :| Segment(n) && f == n + "/[i]";
    BeforeItem(y, n);
    if x + "/" + e == y + "/" + f {
      SplitAtLastSlash(x, e, y + "/" + n, "[i]");
    }
  }

  /** Printing loses nothing. */
  lemma {:induction false} RenderInjective(p: seq<string>, q: seq<string>)
    requires AllElements(p) && AllElements(q) && Render(p) == Render(q)
    ensures p == q
  {
    if p != [] && q != [] {
      var p', q' := p[..|p| - 1], q[..|q| - 1];
      SameElement(Render(p'), p[|p| - 1], Render(q'), q[|q| - 1]);
      RenderInjective(p', q');
      assert p == p' + [p[|p| - 1]] && q == q' + [q[|q| - 1]];
    }
  }

  /** The naming rules: no slash in a name, no attribute called "[i]" or beginning
      with "$", the attributes of a type and the types themselves named apart. */
  ghost predicate WellNamed(g: Graph) {
    && (forall t, k | 0 <= t < |g.types| && 0 <= k < |g.types[t].attributes| ::
          AttributeName(g.types[t].attributes[k].name))
    && (forall t, k, m | 0 <= t < |g.types| && 0 <= k < m < |g.types[t].attributes| ::
          g.types[t].attributes[k].name != g.types[t].attributes[m].name)
    && (forall t | 0 <= t < |g.types| :: '/' !in g.types[t].name)
    && (forall t, u | 0 <= t < u < |g.types| :: g.types[t].name != g.types[u].name)
  }

  predicate AttributeName(s: string) { Segment(s) && (s == "" || s[0] != '$') }

  // ---------------------------------------------------------------- a repeated record comes from a fork

  /** One element leads to one type. */
  ghost predicate Deterministic(g: Graph) {
    forall t, e, f | e in g.Edges(t) && f in g.Edges(t) && e.element == f.element :: e == f
  }

  ghost predicate Forked(g: Graph, root: TypeId, avoid: set<TypeId>) {
    exists w, i, j :: Fork(g, root, w, avoid, i, j)
  }

  lemma EmptyElements(g: Graph, t: TypeId, w: Walk)
    requires g.IsWalk(t, w)
    ensures g.Elements(t, w) == [] <==> w == []
  {
  }

  lemma SameCons<T>(x: T, xs: seq<T>, y: T, ys: seq<T>)
    requires [x] + xs == [y] + ys
    ensures x == y && xs == ys
  {
    assert ([x] + xs)[0] == x && ([y] + ys)[0] == y;
    assert ([x] + xs)[1..] == xs && ([y] + ys)[1..] == ys;
  }

  lemma DifferentTails(v: Walk, w: Walk)
    requires v != [] && w != [] && v != w && v[0] == w[0]
    ensures v[1..] != w[1..]
  {
    assert v == [v[0]] + v[1..] && w == [w[0]] + w[1..];
  }

  /** The first edges of two walks along the same elements. */
  lemma SameFirstElement(g: Graph, t: TypeId, v: Walk, w: Walk, avoid: set<TypeId>)
    requires Deterministic(g) && g.Elements(t, v) == g.Elements(t, w)
    requires v != [] && g.Simple(t, v, avoid) && w != [] && g.Simple(t, w, avoid)
    ensures v[0] < |g.Edges(t)| && w[0] < |g.Edges(t)| && g.Edges(t)[v[0]] == g.Edges(t)[w[0]]
    ensures g.Elements(g.Edges(t)[v[0]].target, v[1..]) == g.Elements(g.Edges(t)[v[0]].target, w[1..])
  {
    FirstEdge(g, t, v, avoid);
    FirstEdge(g, t, w, avoid);
    var e, f := g.Edges(t)[v[0]], g.Edges(t)[w[0]];
    SameCons(e.element, g.Elements(e.target, v[1..]), f.element, g.Elements(f.target, w[1..]));
    assert e in g.Edges(t) && f in g.Edges(t);
  }

  /** Different walks along the same elements part at a fork. */
  lemma {:induction false} SameElementsFork(g: Graph, t: TypeId, v: Walk, w: Walk, avoid: set<TypeId>)
    requires Deterministic(g) && v != w && g.Simple(t, v, avoid) && g.Simple(t, w, avoid)
    requires g.Elements(t, v) == g.Elements(t, w)
    ensures Forked(g, t, avoid)
    decreases |v|
  {
    EmptyElements(g, t, v);
    EmptyElements(g, t, w);
    SameFirstElement(g, t, v, w, avoid);
    FirstEdge(g, t, v, avoid);
    FirstEdge(g, t, w, avoid);
    if v[0] == w[0] {
      DifferentTails(v, w);
      SameElementsFork(g, g.Edges(t)[v[0]].target, v[1..], w[1..], avoid + {t});
      ForkBehind(g, t, v[0], avoid);
    } else {
      ForkHere(g, t, v[0], w[0], v[1..], avoid);
    }
  }

  lemma ForkBehind(g: Graph, t: TypeId, k: nat, avoid: set<TypeId>)
    requires t < |g.types| && t !in avoid && k < |g.Edges(t)| && Forked(g, g.Edges(t)[k].target, avoid + {t})
    ensures Forked(g, t, avoid)
  {
    var w, i, j :| Fork(g, g.Edges(t)[k].target, w, avoid + {t}, i, j);
    AddFirstEdge(g, t, k, w, avoid);
    assert Fork(g, t, [k] + w, avoid, i, j);
  }

  lemma ForkHere(g: Graph, t: TypeId, k: nat, m: nat, w: Walk, avoid: set<TypeId>)
    requires t < |g.types| && t !in avoid && k < |g.Edges(t)| && m < |g.Edges(t)|
    requires k != m && g.Edges(t)[k] == g.Edges(t)[m] && g.Simple(g.Edges(t)[k].target, w, avoid + {t})
    ensures Forked(g, t, avoid)
  {
    var u := g.Edges(t)[k].target;
    assert g.Nodes(u, w)[0] == u;
    assert g.Nodes(t, []) == [t];
    assert Fork(g, t, [], avoid, if k < m then k else m, if k < m then m else k);
  }

  ghost predicate ElementsOk(g: Graph) {
    forall t, e | e in g.Edges(t) :: Element(e.element)
  }

  lemma {:induction false} WalkElements(g: Graph, t: TypeId, w: Walk)
    requires ElementsOk(g)
    ensures AllElements(g.Elements(t, w))
    decreases |w|
  {
    if w != [] && w[0] < |g.Edges(t)| {
      assert g.Edges(t)[w[0]] in g.Edges(t);
      WalkElements(g, g.Edges(t)[w[0]].target, w[1..]);
    }
  }

  lemma SameRecordFork(g: Graph, root: TypeId, v: Walk, w: Walk)
    requires Deterministic(g) && ElementsOk(g) && v != w
    requires g.Simple(root, v, {}) && g.Simple(root, w, {})
    requires g.RecordOf(root, [], v) == g.RecordOf(root, [], w)
    ensures Forked(g, root, {})
  {
    WalkElements(g, root, v);
    WalkElements(g, root, w);
    assert [] + g.Elements(root, v) == g.Elements(root, v) && [] + g.Elements(root, w) == g.Elements(root, w);
    RenderInjective(g.Elements(root, v), g.Elements(root, w));
    SameElementsFork(g, root, v, w, {});
  }

  /** Under names that tell elements apart: a record is repeated if and only if two
      equal edges fork off a simple walk. */
  lemma DistinctIffNoFork(g: Graph, root: TypeId)
    requires Deterministic(g) && ElementsOk(g)
    ensures Distinct(g.Records(root, [], {})) <==> !Forked(g, root, {})
  {
    if Forked(g, root, {}) {
      var w, i, j :| Fork(g, root, w, {}, i, j);
      ParallelEdgesRepeat(g, root, w, i, j);
    } else {
      var ws, rs := g.Walks(root, {}), g.Records(root, [], {});
      g.RecordsAreWalks(root, [], {});
      g.WalksDistinct(root, {});
      forall x, y | 0 <= x < y < |rs| ensures rs[x] != rs[y] {
        g.WalksExact(root, {}, ws[x]);
        g.WalksExact(root, {}, ws[y]);
        assert ws[x] in ws && ws[y] in ws;
        assert rs[x] == g.RecordOf(root, [], ws[x]) && rs[y] == g.RecordOf(root, [], ws[y]);
        if rs[x] == rs[y] {
          SameRecordFork(g, root, ws[x], ws[y]);
        }
      }
    }
  }

  // ---------------------------------------------------------------- counting

  function Count<T(==)>(x: T, xs: seq<T>): nat {
    if xs == [] then 0 else Count(x, xs[..|xs| - 1]) + if xs[|xs| - 1] == x then 1 else 0
  }

  lemma {:induction false} CountConcat<T>(x: T, xs: seq<T>, ys: seq<T>)
    ensures Count(x, xs + ys) == Count(x, xs) + Count(x, ys)
  {
    if ys == [] {
      assert xs + ys == xs;
    } else {
      assert (xs + ys)[..|xs + ys| - 1] == xs + ys[..|ys| - 1];
      CountConcat(x, xs, ys[..|ys| - 1]);
    }
  }

  lemma {:induction false} CountsMember<T>(x: T, xs: seq<T>)
    ensures Count(x, xs) > 0 <==> x in xs
  {
    if xs != [] {
      CountsMember(x, xs[..|xs| - 1]);
      assert xs == xs[..|xs| - 1] + [xs[|xs| - 1]];
    }
  }

  ghost predicate Twice<T>(x: T, xs: seq<T>) {
    exists i, j :: 0 <= i < j < |xs| && xs[i] == x && xs[j] == x
  }

  lemma {:induction false} CountsTwice<T>(x: T, xs: seq<T>)
    ensures Count(x, xs) >= 2 <==> Twice(x, xs)
  {
    if xs != [] {
      var front, n := xs[..|xs| - 1], |xs| - 1;
      CountsTwice(x, front);
      CountsMember(x, front);
      if Twice(x, xs) {
        var i, j :| 0 <= i < j < |xs| && xs[i] == x && xs[j] == x;
        assert front[i] == x;
        assert j < n ==> front[j] == x;
      }
      if Twice(x, front) {
        var i, j :| 0 <= i < j < |front| && front[i] == x && front[j] == x;
        assert xs[i] == x && xs[j] == x;
      }
      if x in front && xs[n] == x {
        var i :| 0 <= i < |front| && front[i] == x;
        assert xs[i] == x && xs[n] == x;
      }
    }
  }

  // ---------------------------------------------------------------- read off the registry

  /** How often `u` is reached from `t` by "$" and its name: aggregations registered
      in either direction, and one more if `u` descends from `t`. */
  function Links(g: Graph, t: TypeId, u: TypeId): nat {
    Count((t, u), g.aggregates) + Count((u, t), g.aggregates) + if (u, t) in g.childOf then 1 else 0
  }

  function ByName(g: Graph, u: TypeId): Edge { Edge("$" + g.Name(u), u) }

  lemma {:induction false} ChildCount(g: Graph, t: TypeId, ts: seq<TypeInfo>, u: TypeId)
    ensures Count(ByName(g, u), g.ChildEdges(t, ts)) == if u < |ts| && (u, t) in g.childOf then 1 else 0
  {
    if ts != [] {
      var front := ts[..|ts| - 1];
      ChildCount(g, t, front, u);
      CountConcat(ByName(g, u), g.ChildEdges(t, front), g.ChildEdge(t, |front|));
      SingleCount(ByName(g, u), ByName(g, |front|));
    }
  }

  lemma SingleCount<T>(x: T, y: T)
    ensures Count(x, [y]) == (if x == y then 1 else 0) && Count(x, []) == 0
  {
    assert [y][..0] == [];
  }

  lemma OneAggregate(g: Graph, t: TypeId, p: (TypeId, TypeId), u: TypeId)
    requires t != u
    ensures Count(ByName(g, u), g.AggregateEdge(t, p)) == (if p == (t, u) then 1 else 0) + if p == (u, t) then 1 else 0
  {
    SingleCount(ByName(g, u), ByName(g, p.0));
    SingleCount(ByName(g, u), ByName(g, p.1));
  }

  lemma {:induction false} AggregateCount(g: Graph, t: TypeId, pairs: seq<(TypeId, TypeId)>, u: TypeId)
    requires t != u
    ensures Count(ByName(g, u), g.AggregateEdges(t, pairs)) == Count((t, u), pairs) + Count((u, t), pairs)
  {
    if pairs != [] {
      var front, p := pairs[..|pairs| - 1], pairs[|pairs| - 1];
      AggregateCount(g, t, front, u);
      CountConcat(ByName(g, u), g.AggregateEdges(t, front), g.AggregateEdge(t, p));
      OneAggregate(g, t, p, u);
    }
  }

  lemma EdgeCount(g: Graph, t: TypeId, e: Edge)
    ensures Count(e, g.Edges(t)) == Count(e, g.AttributeEdges(g.Attributes(t))) +
              Count(e, g.ChildEdges(t, g.types)) + Count(e, g.AggregateEdges(t, g.aggregates))
  {
    var a, c, p := g.AttributeEdges(g.Attributes(t)), g.ChildEdges(t, g.types), g.AggregateEdges(t, g.aggregates);
    CountConcat(e, a + c, p);
    CountConcat(e, a, c);
  }

  lemma LinkCount(g: Graph, t: TypeId, u: TypeId)
    requires t != u && u < |g.types|
    ensures Count(ByName(g, u), g.Edges(t)) == Links(g, t, u) + Count(ByName(g, u), g.AttributeEdges(g.Attributes(t)))
  {
    EdgeCount(g, t, ByName(g, u));
    ChildCount(g, t, g.types, u);
    AggregateCount(g, t, g.aggregates, u);
  }

  /** Wherever a simple walk ends at a type linked twice to one not on the walk, a
      record is repeated, whatever the names. Node and Icmpv4L4Protocol are linked
      twice by GetTypicalAggregations. */
  lemma RepeatedAggregation(g: Graph, root: TypeId, w: Walk, u: TypeId)
    requires LinkedTwice(g, root, w, u)
    ensures !Distinct(g.Records(root, [], {}))
  {
    var es := g.Edges(g.End(root, w));
    LinkCount(g, g.End(root, w), u);
    CountsTwice(ByName(g, u), es);
    var i, j :| 0 <= i < j < |es| && es[i] == ByName(g, u) && es[j] == ByName(g, u);
    ParallelEdgesRepeat(g, root, w, i, j);
  }

  /** The walk ends at a type that is linked twice to `u`, which is not on it. */
  ghost predicate LinkedTwice(g: Graph, root: TypeId, w: Walk, u: TypeId) {
    g.Simple(root, w, {}) && u < |g.types| && u !in g.Nodes(root, w) && Links(g, g.End(root, w), u) >= 2
  }

  // ---------------------------------------------------------------- well-named attributes

  predicate WellNamedAttributes(attributes: seq<Attribute>) {
    && (forall k | 0 <= k < |attributes| :: AttributeName(attributes[k].name))
    && (forall k, m | 0 <= k < m < |attributes| :: attributes[k].name != attributes[m].name)
  }

  lemma Attributes(g: Graph, t: TypeId)
    requires WellNamed(g)
    ensures WellNamedAttributes(g.Attributes(t))
  {
  }

  lemma ItemNames(m: string, n: string)
    requires m + "/[i]" == n + "/[i]"
    ensures m == n
  {
    assert (m + "/[i]")[..|m|] == m && (n + "/[i]")[..|n|] == n;
  }

  lemma ItemHasSlash(n: string)
    ensures '/' in n + "/[i]"
  {
    assert (n + "/[i]")[|n|] == '/';
  }

  function ElementOf(a: Attribute): string { if a.checker.Container? then a.name + "/[i]" else a.name }

  /** The element made of an attribute tells its name. */
  lemma ElementTellsName(a: Attribute, b: Attribute)
    requires AttributeName(a.name) && AttributeName(b.name) && ElementOf(a) == ElementOf(b)
    ensures a.name == b.name
  {
    ItemHasSlash(a.name);
    ItemHasSlash(b.name);
    if a.checker.Container? && b.checker.Container? {
      ItemNames(a.name, b.name);
    }
  }

  lemma EdgeOfAttribute(g: Graph, a: Attribute, e: Edge)
    requires e in g.AttributeEdge(a)
    ensures e.element == ElementOf(a) && g.AttributeEdge(a) == [e]
  {
  }

  lemma AttributeElement(g: Graph, attributes: seq<Attribute>, e: Edge) returns (k: nat)
    requires WellNamedAttributes(attributes) && e in g.AttributeEdges(attributes)
    ensures k < |attributes| && g.AttributeEdge(attributes[k]) == [e] && e.element == ElementOf(attributes[k])
    ensures Element(e.element) && (e.element == "" || e.element[0] != '$')
  {
    g.AttributeEdgesExact(attributes, e);
    var a :| a in attributes && e in g.AttributeEdge(a);
    k :| 0 <= k < |attributes| && attributes[k] == a;
    EdgeOfAttribute(g, a, e);
    ElementShape(a);
  }

  lemma ElementShape(a: Attribute)
    requires AttributeName(a.name)
    ensures Element(ElementOf(a)) && (ElementOf(a) == "" || ElementOf(a)[0] != '$')
  {
    assert a.name != "" ==> (a.name + "/[i]")[0] == a.name[0];
  }

  lemma SameAttribute(g: Graph, attributes: seq<Attribute>, e: Edge, f: Edge)
    requires WellNamedAttributes(attributes) && e.element == f.element
    requires e in g.AttributeEdges(attributes) && f in g.AttributeEdges(attributes)
    ensures e == f
  {
    var k := AttributeElement(g, attributes, e);
    var m := AttributeElement(g, attributes, f);
    ElementTellsName(attributes[k], attributes[m]);
    assert k == m;
    assert [e][0] == [f][0];
  }

  lemma NewAttribute(g: Graph, attributes: seq<Attribute>, e: Edge)
    requires attributes != [] && WellNamedAttributes(attributes) && e in g.AttributeEdge(attributes[|attributes| - 1])
    ensures e !in g.AttributeEdges(attributes[..|attributes| - 1])
  {
    var front, a := attributes[..|attributes| - 1], attributes[|attributes| - 1];
    if e in g.AttributeEdges(front) {
      var k := AttributeElement(g, front, e);
      EdgeOfAttribute(g, a, e);
      ElementTellsName(a, front[k]);
    }
  }

  lemma {:induction false} AttributeCount(g: Graph, attributes: seq<Attribute>, e: Edge)
    requires WellNamedAttributes(attributes)
    ensures Count(e, g.AttributeEdges(attributes)) <= 1
  {
    if attributes != [] {
      var front, a := attributes[..|attributes| - 1], attributes[|attributes| - 1];
      AttributeCount(g, front, e);
      CountConcat(e, g.AttributeEdges(front), g.AttributeEdge(a));
      OneAttribute(g, a, e);
      if e in g.AttributeEdge(a) {
        NewAttribute(g, attributes, e);
        CountsMember(e, g.AttributeEdges(front));
      }
    }
  }

  lemma OneAttribute(g: Graph, a: Attribute, e: Edge)
    ensures Count(e, g.AttributeEdge(a)) == if e in g.AttributeEdge(a) then 1 else 0
  {
    if g.AttributeEdge(a) != [] {
      SingleCount(e, g.AttributeEdge(a)[0]);
    }
  }

  // ---------------------------------------------------------------- well-named registries

  lemma DollarSegment(name: string)
    requires '/' !in name
    ensures Segment("$" + name) && ("$" + name)[0] == '$'
  {
    assert "[i]"[0] == '[';
  }

  /** An edge either comes from an attribute or is named after its target. */
  lemma EdgeKinds(g: Graph, t: TypeId, e: Edge)
    requires g.Valid() && WellNamed(g) && e in g.Edges(t)
    ensures e in g.AttributeEdges(g.Attributes(t)) || (e == ByName(g, e.target) && e.target < |g.types|)
    ensures e == ByName(g, e.target) ==> e !in g.AttributeEdges(g.Attributes(t))
    ensures Element(e.element)
  {
    g.ChildEdgesExact(t, g.types, e);
    g.AggregateEdgesExact(t, g.aggregates, e);
    Attributes(g, t);
    if e in g.AttributeEdges(g.Attributes(t)) {
      var k := AttributeElement(g, g.Attributes(t), e);
    } else {
      DollarSegment(g.Name(e.target));
    }
  }

  lemma NamesTellApart(g: Graph, t: TypeId, e: Edge, f: Edge)
    requires g.Valid() && WellNamed(g) && e in g.Edges(t) && f in g.Edges(t) && e.element == f.element
    ensures e == f
  {
    Attributes(g, t);
    EdgeKinds(g, t, e);
    EdgeKinds(g, t, f);
    var es := g.AttributeEdges(g.Attributes(t));
    if e in es && f in es {
      SameAttribute(g, g.Attributes(t), e, f);
    } else if e in es {
      var k := AttributeElement(g, g.Attributes(t), e);
    } else if f in es {
      var k := AttributeElement(g, g.Attributes(t), f);
    } else {
      SameTypeName(g, e.target, f.target);
    }
  }

  lemma SameTypeName(g: Graph, t: TypeId, u: TypeId)
    requires WellNamed(g) && t < |g.types| && u < |g.types| && "$" + g.Name(t) == "$" + g.Name(u)
    ensures t == u
  {
    assert ("$" + g.Name(t))[1..] == g.Name(t) && ("$" + g.Name(u))[1..] == g.Name(u);
  }

  lemma WellNamedElements(g: Graph)
    requires g.Valid() && WellNamed(g)
    ensures Deterministic(g) && ElementsOk(g)
  {
    forall t, e | e in g.Edges(t) ensures Element(e.element) {
      EdgeKinds(g, t, e);
    }
    forall t, e, f | e in g.Edges(t) && f in g.Edges(t) && e.element == f.element ensures e == f {
      NamesTellApart(g, t, e, f);
    }
  }

  lemma TwoEqualEdges(g: Graph, t: TypeId, e: Edge)
    requires g.Valid() && WellNamed(g) && t != e.target && Twice(e, g.Edges(t))
    ensures e.target < |g.types| && Links(g, t, e.target) >= 2
  {
    CountsTwice(e, g.Edges(t));
    EdgeKinds(g, t, e);
    Attributes(g, t);
    EdgeCount(g, t, e);
    AttributeCount(g, g.Attributes(t), e);
    CountsMember(e, g.AttributeEdges(g.Attributes(t)));
    CountsMember(e, g.ChildEdges(t, g.types));
    CountsMember(e, g.AggregateEdges(t, g.aggregates));
    g.ChildEdgesExact(t, g.types, e);
    g.AggregateEdgesExact(t, g.aggregates, e);
    LinkCount(g, t, e.target);
  }

  lemma ForkIsLink(g: Graph, root: TypeId, w: Walk, i: nat, j: nat)
    requires g.Valid() && WellNamed(g) && Fork(g, root, w, {}, i, j)
    ensures LinkedTwice(g, root, w, g.Edges(g.End(root, w))[i].target)
  {
    var es := g.Edges(g.End(root, w));
    assert Twice(es[i], es);
    assert g.End(root, w) in g.Nodes(root, w);
    TwoEqualEdges(g, g.End(root, w), es[i]);
  }

  /** In a well-named registry the search repeats a record if and only if some simple
      walk from the root ends at a type that is linked twice to one not on the walk:
      aggregated twice, in whichever direction, or aggregated and its parent. */
  lemma RepetitionFreeIff(g: Graph, root: TypeId)
    requires g.Valid() && WellNamed(g)
    ensures Distinct(g.Records(root, [], {})) <==> !exists w, u :: LinkedTwice(g, root, w, u)
  {
    WellNamedElements(g);
    DistinctIffNoFork(g, root);
    if Forked(g, root, {}) {
      var w, i, j :| Fork(g, root, w, {}, i, j);
      ForkIsLink(g, root, w, i, j);
    }
    if w, u :| LinkedTwice(g, root, w, u) {
      RepeatedAggregation(g, root, w, u);
    }
  }

  // ---------------------------------------------------------------- several roots

  ghost predicate Disjoint<T>(xs: seq<T>, ys: seq<T>) { forall x | x in xs :: x !in ys }

  lemma DistinctConcatIff<T>(xs: seq<T>, ys: seq<T>)
    ensures Distinct(xs + ys) <==> Distinct(xs) && Distinct(ys) && Disjoint(xs, ys)
  {
    var zs := xs + ys;
    if Distinct(zs) {
      forall i, j | 0 <= i < j < |xs| ensures xs[i] != xs[j] {
        assert zs[i] != zs[j];
      }
      forall i, j | 0 <= i < j < |ys| ensures ys[i] != ys[j] {
        assert zs[|xs| + i] != zs[|xs| + j];
      }
      forall i, j | 0 <= i < |xs| && 0 <= j < |ys| ensures xs[i] != ys[j] {
        assert zs[i] != zs[|xs| + j];
      }
    } else if Distinct(xs) && Distinct(ys) && Disjoint(xs, ys) {
      DistinctConcat(xs, ys);
    }
  }

  lemma DisjointConcat<T>(xs: seq<T>, ys: seq<T>, zs: seq<T>)
    ensures Disjoint(xs + ys, zs) <==> Disjoint(xs, zs) && Disjoint(ys, zs)
  {
    forall x ensures x in xs + ys <==> x in xs || x in ys {
      InConcat(xs, ys, x);
    }
  }

  lemma {:induction false} DisjointFlatMap<A, B>(f: A -> seq<B>, xs: seq<A>, ys: seq<B>)
    ensures Disjoint(FlatMap(f, xs), ys) <==> forall i | 0 <= i < |xs| :: Disjoint(f(xs[i]), ys)
  {
    if xs != [] {
      var front, last := xs[..|xs| - 1], xs[|xs| - 1];
      DisjointFlatMap(f, front, ys);
      DisjointConcat(FlatMap(f, front), f(last), ys);
      assert forall i | 0 <= i < |front| :: front[i] == xs[i];
    }
  }

  ghost predicate EachDistinct<A, B>(f: A -> seq<B>, xs: seq<A>) {
    forall i | 0 <= i < |xs| :: Distinct(f(xs[i]))
  }

  ghost predicate PairwiseDisjoint<A, B>(f: A -> seq<B>, xs: seq<A>) {
    forall i, j | 0 <= i < j < |xs| :: Disjoint(f(xs[i]), f(xs[j]))
  }

  lemma PairwiseLast<A, B>(f: A -> seq<B>, xs: seq<A>)
    requires xs != []
    ensures var front, last := xs[..|xs| - 1], xs[|xs| - 1];
            && (PairwiseDisjoint(f, xs) <==> PairwiseDisjoint(f, front) && forall i | 0 <= i < |front| :: Disjoint(f(front[i]), f(last)))
            && (EachDistinct(f, xs) <==> EachDistinct(f, front) && Distinct(f(last)))
  {
    var front := xs[..|xs| - 1];
    assert forall i | 0 <= i < |front| :: front[i] == xs[i];
  }

  lemma {:induction false} FlatMapDistinctIff<A, B>(f: A -> seq<B>, xs: seq<A>)
    ensures Distinct(FlatMap(f, xs)) <==> EachDistinct(f, xs) && PairwiseDisjoint(f, xs)
  {
    if xs != [] {
      var front, last := xs[..|xs| - 1], xs[|xs| - 1];
      FlatMapDistinctIff(f, front);
      DistinctConcatIff(FlatMap(f, front), f(last));
      DisjointFlatMap(f, front, f(last));
      PairwiseLast(f, xs);
    }
  }

  /** No record comes from two of the roots. */
  ghost predicate NothingShared(g: Graph, roots: seq<TypeId>) {
    forall i, j, r | 0 <= i < j < |roots| && g.Recorded(roots[i], r) :: !g.Recorded(roots[j], r)
  }

  lemma NothingSharedIff(g: Graph, roots: seq<TypeId>)
    ensures NothingShared(g, roots) <==> PairwiseDisjoint(g.FromRoot(), roots)
  {
    forall t, r ensures r in g.FromRoot()(t) <==> g.Recorded(t, r) {
      g.RecordsExact(t, [], {}, r);
    }
    if NothingShared(g, roots) {
      forall i, j | 0 <= i < j < |roots| ensures Disjoint(g.FromRoot()(roots[i]), g.FromRoot()(roots[j])) {
      }
    }
    if PairwiseDisjoint(g.FromRoot(), roots) {
      forall i, j, r | 0 <= i < j < |roots| && g.Recorded(roots[i], r) ensures !g.Recorded(roots[j], r) {
        assert r in g.FromRoot()(roots[i]) && Disjoint(g.FromRoot()(roots[i]), g.FromRoot()(roots[j]));
      }
    }
  }

  /** The whole output is free of repetitions if and only if that of each root is and
      no two roots share a record. */
  lemma OutputDistinctIff(g: Graph, roots: seq<TypeId>)
    ensures Distinct(g.AllRecords(roots)) <==>
              (forall i | 0 <= i < |roots| :: Distinct(g.Records(roots[i], [], {}))) && NothingShared(g, roots)
  {
    FlatMapDistinctIff(g.FromRoot(), roots);
    NothingSharedIff(g, roots);
    assert forall i | 0 <= i < |roots| :: g.FromRoot()(roots[i]) == g.Records(roots[i], [], {});
  }
}
