/** The graph that `StaticInformation` searches, and its simple walks. The TypeId
    database itself is not part of this model: a registry is any finite table of
    types with attributes, plus a descendant relation. */
module TypeGraph {

  type TypeId = nat

  datatype Checker = Pointer(pointee: TypeId) | Container(item: TypeId) | Other

  datatype Attribute = Attribute(name: string, checker: Checker)

  datatype TypeInfo = TypeInfo(name: string, attributes: seq<Attribute>)

  datatype Edge = Edge(element: string, target: TypeId)

  type Walk = seq<nat>  // the numbers of the edges taken, so parallel edges make different walks

  type Record = (TypeId, string)

  /** "/" before every element, as GetCurrentPath prints it. */
  function Render(path: seq<string>): string {
    if path == [] then "" else Render(path[..|path| - 1]) + "/" + path[|path| - 1]
  }

  /** Where element k begins in a printed path: every element takes one character more
      than its own. */
  function Offset(path: seq<string>, k: nat): nat {
    if k == 0 || k > |path| then 0 else Offset(path, k - 1) + 1 + |path[k - 1]|
  }

  ghost predicate SpellsAt(s: string, path: seq<string>, k: nat) {
    k < |path| && Offset(path, k) <= Offset(path, k + 1) <= |s| &&
    s[Offset(path, k)..Offset(path, k + 1)] == "/" + path[k]
  }

  /** `s` is the elements of the path from the first to the last, a slash before each,
      and nothing else. */
  ghost predicate Spells(s: string, path: seq<string>) {
    |s| == Offset(path, |path|) && forall k | 0 <= k < |path| :: SpellsAt(s, path, k)
  }

  lemma {:induction false} OffsetOfFront(path: seq<string>, x: string, k: nat)
    requires k <= |path|
    ensures Offset(path + [x], k) == Offset(path, k)
  {
    if k > 0 {
      OffsetOfFront(path, x, k - 1);
    }
  }

  lemma SpellsAtFront(s: string, more: string, path: seq<string>, x: string, k: nat)
    requires SpellsAt(s, path, k)
    ensures SpellsAt(s + more, path + [x], k)
  {
    OffsetOfFront(path, x, k);
    OffsetOfFront(path, x, k + 1);
    var i, j := Offset(path, k), Offset(path, k + 1);
    assert (s + more)[i..j] == s[i..j];
  }

  lemma SpellsAtEnd(s: string, path: seq<string>, x: string)
    requires |s| == Offset(path, |path|)
    ensures SpellsAt(s + ("/" + x), path + [x], |path|)
    ensures Offset(path + [x], |path| + 1) == |s| + 1 + |x|
  {
    OffsetOfFront(path, x, |path|);
    assert Offset(path + [x], |path| + 1) == |s| + 1 + |x|;
    EndSlice(s, "/" + x);
  }

  lemma EndSlice<T>(xs: seq<T>, ys: seq<T>)
    ensures (xs + ys)[|xs|..|xs| + |ys|] == ys
  {
  }

  lemma SpellsPush(s: string, path: seq<string>, x: string)
    requires Spells(s, path)
    ensures Spells(s + ("/" + x), path + [x])
  {
    SpellsAtEnd(s, path, x);
    forall k | 0 <= k < |path| ensures SpellsAt(s + ("/" + x), path + [x], k) {
      SpellsAtFront(s, "/" + x, path, x, k);
    }
  }

  lemma {:induction false} RenderSpells(path: seq<string>)
    ensures Spells(Render(path), path)
  {
    if path != [] {
      var front, last := path[..|path| - 1], path[|path| - 1];
      RenderSpells(front);
      SpellsPush(Render(front), front, last);
      assert front + [last] == path && Render(front) + "/" + last == Render(front) + ("/" + last);
    }
  }

  lemma {:induction false} RenderPrefix(path: seq<string>, more: seq<string>)
    ensures Render(path) <= Render(path + more)
  {
    if more == [] {
      assert path + more == path;
    } else {
      RenderPrefix(path, more[..|more| - 1]);
      assert (path + more)[..|path + more| - 1] == path + more[..|more| - 1];
    }
  }

  /** All the recorded paths begin with this one. */
  ghost predicate Begin(records: seq<Record>, path: string) {
    forall r | r in records :: path <= r.1
  }

  ghost predicate Distinct<T>(xs: seq<T>) {
    forall i, j | 0 <= i < j < |xs| :: xs[i] != xs[j]
  }

  datatype Graph = Graph(types: seq<TypeInfo>, childOf: set<(TypeId, TypeId)>, objectType: TypeId,
                         aggregates: seq<(TypeId, TypeId)>)
  {
    /** Every TypeId mentioned is registered. */
    ghost predicate Valid() {
      && (forall t, a | 0 <= t < |types| && a in types[t].attributes :: Registered(a.checker))
      && (forall k | 0 <= k < |aggregates| :: aggregates[k].0 < |types| && aggregates[k].1 < |types|)
    }

    predicate Registered(checker: Checker) {
      match checker
      case Pointer(u) => u < |types|
      case Container(u) => u < |types|
      case Other => true
    }

    function Name(t: TypeId): string { if t < |types| then types[t].name else "" }

    function Attributes(t: TypeId): seq<Attribute> { if t < |types| then types[t].attributes else [] }

    // -------------------------------------------------------------- the edges, declared

    /** What can be reached from an object of type `t` by one path element: a
        pointer attribute other than to Object, a container attribute, a
        registered descendant, or an aggregation in either direction. */
    ghost predicate IsEdge(t: TypeId, e: Edge) {
      || (exists a | a in Attributes(t) :: a.checker.Pointer? && a.checker.pointee != objectType &&
                                           e == Edge(a.name, a.checker.pointee))
      || (exists a | a in Attributes(t) :: a.checker.Container? && e == Edge(a.name + "/[i]", a.checker.item))
      || (e.target < |types| && (e.target, t) in childOf && e.element == "$" + Name(e.target))
      || (((t, e.target) in aggregates || (e.target, t) in aggregates) && e.element == "$" + Name(e.target))
    }

    // -------------------------------------------------------------- the edges, enumerated

    function AttributeEdge(a: Attribute): seq<Edge> {
      match a.checker
      case Pointer(u) => if u == objectType then [] else [Edge(a.name, u)]
      case Container(u) => [Edge(a.name + "/[i]", u)]
      case Other => []
    }

    function AttributeEdges(attributes: seq<Attribute>): seq<Edge> {
      if attributes == [] then []
      else AttributeEdges(attributes[..|attributes| - 1]) + AttributeEdge(attributes[|attributes| - 1])
    }

    function ChildEdge(t: TypeId, u: TypeId): seq<Edge> {
      if (u, t) in childOf then [Edge("$" + Name(u), u)] else []
    }

    /** The descendants of `t` among the first registered types `ts`. */
    function ChildEdges(t: TypeId, ts: seq<TypeInfo>): seq<Edge> {
      if ts == [] then [] else ChildEdges(t, ts[..|ts| - 1]) + ChildEdge(t, |ts| - 1)
    }

    function AggregateEdge(t: TypeId, p: (TypeId, TypeId)): seq<Edge> {
      if p.1 == t then [Edge("$" + Name(p.0), p.0)]
      else if p.0 == t then [Edge("$" + Name(p.1), p.1)]
      else []
    }

    function AggregateEdges(t: TypeId, pairs: seq<(TypeId, TypeId)>): seq<Edge> {
      if pairs == [] then []
      else AggregateEdges(t, pairs[..|pairs| - 1]) + AggregateEdge(t, pairs[|pairs| - 1])
    }

    function Edges(t: TypeId): seq<Edge> {
      AttributeEdges(Attributes(t)) + ChildEdges(t, types) + AggregateEdges(t, aggregates)
    }

    lemma {:induction false} AttributeEdgesExact(attributes: seq<Attribute>, e: Edge)
      ensures e in AttributeEdges(attributes) <==> exists a | a in attributes :: e in AttributeEdge(a)
    {
      if attributes != [] {
        var front, last := attributes[..|attributes| - 1], attributes[|attributes| - 1];
        AttributeEdgesExact(front, e);
        assert front + [last] == attributes;
      }
    }

    lemma {:induction false} ChildEdgesExact(t: TypeId, ts: seq<TypeInfo>, e: Edge)
      ensures e in ChildEdges(t, ts) <==>
              e.target < |ts| && (e.target, t) in childOf && e.element == "$" + Name(e.target)
    {
      if ts != [] {
        ChildEdgesExact(t, ts[..|ts| - 1], e);
      }
    }

    lemma {:induction false} AggregateEdgesExact(t: TypeId, pairs: seq<(TypeId, TypeId)>, e: Edge)
      ensures e in AggregateEdges(t, pairs) <==>
              ((t, e.target) in pairs || (e.target, t) in pairs) && e.element == "$" + Name(e.target)
    {
      if pairs != [] {
        var front, last := pairs[..|pairs| - 1], pairs[|pairs| - 1];
        AggregateEdgesExact(t, front, e);
        assert front + [last] == pairs;
      }
    }

    /** The enumeration finds every declared edge and no other. */
    lemma EdgesExact(t: TypeId, e: Edge)
      ensures e in Edges(t) <==> IsEdge(t, e)
    {
      AttributeEdgesExact(Attributes(t), e);
      ChildEdgesExact(t, types, e);
      AggregateEdgesExact(t, aggregates, e);
    }

    // -------------------------------------------------------------- walks

    ghost predicate IsWalk(t: TypeId, w: Walk)
      decreases |w|
    {
      t < |types| && (w == [] || (w[0] < |Edges(t)| && IsWalk(Edges(t)[w[0]].target, w[1..])))
    }

    /** The types on a walk, its first and last included. */
    ghost function Nodes(t: TypeId, w: Walk): (ns: seq<TypeId>)
      ensures |ns| > 0 && ns[0] == t
      decreases |w|
    {
      if w == [] || w[0] >= |Edges(t)| then [t] else [t] + Nodes(Edges(t)[w[0]].target, w[1..])
    }

    ghost function Elements(t: TypeId, w: Walk): seq<string>
      decreases |w|
    {
      if w == [] || w[0] >= |Edges(t)| then []
      else [Edges(t)[w[0]].element] + Elements(Edges(t)[w[0]].target, w[1..])
    }

    ghost function End(t: TypeId, w: Walk): TypeId { Nodes(t, w)[|Nodes(t, w)| - 1] }

    /** No type occurs twice on the walk, and none is in `avoid`. */
    ghost predicate Simple(t: TypeId, w: Walk, avoid: set<TypeId>) {
      IsWalk(t, w) && Distinct(Nodes(t, w)) && forall x | x in Nodes(t, w) :: x !in avoid
    }

    lemma SimpleStep(t: TypeId, w: Walk, avoid: set<TypeId>)
      requires t < |types| && w != [] && w[0] < |Edges(t)|
      ensures Simple(t, w, avoid) <==> t !in avoid && Simple(Edges(t)[w[0]].target, w[1..], avoid + {t})
    {
      var ms := Nodes(Edges(t)[w[0]].target, w[1..]);
      assert Nodes(t, w) == [t] + ms;
      DistinctCons(t, ms);
    }

    // -------------------------------------------------------------- depth-first order

    ghost function All(): set<TypeId> { set t {:trigger types[t]} | 0 <= t < |types| :: t }

    /** The measure of the recursion: registered types that are not ancestors. */
    ghost function Left(avoid: set<TypeId>): nat { |All() - avoid| }

    lemma AvoidMore(t: TypeId, avoid: set<TypeId>)
      requires t < |types| && t !in avoid
      ensures Left(avoid + {t}) < Left(avoid)
    {
      assert t in All() by { assert types[t] == types[t]; }
      SetShrinks(All() - (avoid + {t}), All() - avoid);
    }

    /** The simple walks from `t` that avoid `avoid`, in the order of the search. */
    ghost function Walks(t: TypeId, avoid: set<TypeId>): seq<Walk>
      decreases Left(avoid), 0
    {
      if t >= |types| || t in avoid then []
      else
        AvoidMore(t, avoid);
        [[]] + WalksVia(Edges(t), avoid + {t})
    }

    ghost function WalksVia(es: seq<Edge>, avoid: set<TypeId>): seq<Walk>
      decreases Left(avoid), |es|
    {
      if es == [] then []
      else
        WalksVia(es[..|es| - 1], avoid) + Prepend(|es| - 1, Walks(es[|es| - 1].target, avoid))
    }

    /** Soundness and completeness of the search. */
    lemma {:induction false} WalksExact(t: TypeId, avoid: set<TypeId>, w: Walk)
      ensures w in Walks(t, avoid) <==> Simple(t, w, avoid)
      decreases |w|, 0, 0
    {
      if t < |types| && t !in avoid {
        if w == [] {
          assert Nodes(t, w) == [t];
          assert Walks(t, avoid)[0] == [];
        } else {
          WalksViaExact(Edges(t), avoid + {t}, w);
          if w[0] < |Edges(t)| {
            SimpleStep(t, w, avoid);
          }
        }
      } else if IsWalk(t, w) {
        assert Nodes(t, w)[0] == t;
      }
    }

    lemma {:induction false} WalksViaExact(es: seq<Edge>, avoid: set<TypeId>, w: Walk)
      requires w != []
      ensures w in WalksVia(es, avoid) <==> w[0] < |es| && Simple(es[w[0]].target, w[1..], avoid)
      decreases |w| - 1, 1, |es|
    {
      if es != [] {
        var front, e := es[..|es| - 1], es[|es| - 1];
        WalksViaExact(front, avoid, w);
        WalksExact(e.target, avoid, w[1..]);
        InPrepend(|front|, Walks(e.target, avoid), w);
        InConcat(WalksVia(front, avoid), Prepend(|front|, Walks(e.target, avoid)), w);
        if w[0] < |front| {
          assert es[w[0]] == front[w[0]];
        } else if w[0] == |front| {
          assert es[w[0]] == e;
        }
      }
    }

    /** Each simple walk is found once. */
    lemma {:induction false} WalksDistinct(t: TypeId, avoid: set<TypeId>)
      ensures Distinct(Walks(t, avoid))
      decreases Left(avoid), 0
    {
      if t < |types| && t !in avoid {
        AvoidMore(t, avoid);
        WalksViaDistinct(Edges(t), avoid + {t});
        DistinctConcat([[]], WalksVia(Edges(t), avoid + {t}));
      }
    }

    lemma {:induction false} WalksViaDistinct(es: seq<Edge>, avoid: set<TypeId>)
      ensures Distinct(WalksVia(es, avoid))
      ensures forall w | w in WalksVia(es, avoid) :: w != [] && w[0] < |es|
      decreases Left(avoid), |es|
    {
      if es != [] {
        var front, ws := es[..|es| - 1], Walks(es[|es| - 1].target, avoid);
        WalksViaDistinct(front, avoid);
        WalksDistinct(es[|es| - 1].target, avoid);
        PrependDistinct(|front|, ws);
        DistinctConcat(WalksVia(front, avoid), Prepend(|front|, ws));
      }
    }

    /** The search is depth first: a walk comes before its continuations, and those by
        an earlier edge before those by a later one. */
    lemma {:induction false} WalksInOrder(t: TypeId, avoid: set<TypeId>)
      ensures InOrder(Walks(t, avoid))
      decreases Left(avoid), 0
    {
      if t < |types| && t !in avoid {
        AvoidMore(t, avoid);
        WalksViaInOrder(Edges(t), avoid + {t});
        WalksViaDistinct(Edges(t), avoid + {t});
        OrderConcat([[]], WalksVia(Edges(t), avoid + {t}));
      }
    }

    lemma {:induction false} WalksViaInOrder(es: seq<Edge>, avoid: set<TypeId>)
      ensures InOrder(WalksVia(es, avoid))
      decreases Left(avoid), |es|
    {
      if es != [] {
        var front, ws := es[..|es| - 1], Walks(es[|es| - 1].target, avoid);
        WalksViaInOrder(front, avoid);
        WalksInOrder(es[|es| - 1].target, avoid);
        WalksViaDistinct(front, avoid);
        PrependInOrder(|front|, ws);
        OrderConcat(WalksVia(front, avoid), Prepend(|front|, ws));
      }
    }

    /** The edges come in the order of the attributes, of the registered types and of
        the aggregations: what is registered later adds edges at the end of its group. */
    lemma EdgesGrow(t: TypeId, attributes: seq<Attribute>, a: Attribute, ts: seq<TypeInfo>, info: TypeInfo,
                    pairs: seq<(TypeId, TypeId)>, p: (TypeId, TypeId))
      ensures AttributeEdges(attributes) <= AttributeEdges(attributes + [a])
      ensures ChildEdges(t, ts) <= ChildEdges(t, ts + [info])
      ensures AggregateEdges(t, pairs) <= AggregateEdges(t, pairs + [p])
    {
      assert (attributes + [a])[..|attributes|] == attributes;
      assert (ts + [info])[..|ts|] == ts;
      assert (pairs + [p])[..|pairs|] == pairs;
    }

    // -------------------------------------------------------------- what gets recorded

    /** The record of a walk taken when the current path is `path`. */
    ghost function RecordOf(t: TypeId, path: seq<string>, w: Walk): Record {
      (End(t, w), Render(path + Elements(t, w)))
    }

    /** The records DoGather(t) appends when the current path is `path` and the
        ancestors are `avoid`. */
    ghost function Records(t: TypeId, path: seq<string>, avoid: set<TypeId>): seq<Record>
      decreases Left(avoid), 0
    {
      if t >= |types| || t in avoid then []
      else
        AvoidMore(t, avoid);
        [(t, Render(path))] + RecordsVia(Edges(t), path, avoid + {t})
    }

    ghost function RecordsVia(es: seq<Edge>, path: seq<string>, avoid: set<TypeId>): seq<Record>
      decreases Left(avoid), |es|
    {
      if es == [] then []
      else
        RecordsVia(es[..|es| - 1], path, avoid) +
        Records(es[|es| - 1].target, path + [es[|es| - 1].element], avoid)
    }

    lemma RecordsViaPush(es: seq<Edge>, e: Edge, path: seq<string>, avoid: set<TypeId>)
      ensures RecordsVia(es + [e], path, avoid) ==
              RecordsVia(es, path, avoid) + Records(e.target, path + [e.element], avoid)
    {
    }

    lemma RecordsUnfold(before: seq<Record>, t: TypeId, path: seq<string>, avoid: set<TypeId>)
      requires t < |types| && t !in avoid
      ensures before + [(t, Render(path))] + RecordsVia(Edges(t), path, avoid + {t}) ==
              before + Records(t, path, avoid)
    {
    }

    ghost function Recorder(t: TypeId, path: seq<string>): Walk -> Record {
      (w: Walk) => RecordOf(t, path, w)
    }

    lemma StandingStill(t: TypeId, path: seq<string>)
      ensures RecordOf(t, path, []) == (t, Render(path))
    {
      assert path + [] == path;
    }

    /** The search records one entry for each simple walk, in order. */
    lemma {:induction false} RecordsAreWalks(t: TypeId, path: seq<string>, avoid: set<TypeId>)
      ensures Records(t, path, avoid) == Map(Recorder(t, path), Walks(t, avoid))
      decreases Left(avoid), 0
    {
      if t < |types| && t !in avoid {
        AvoidMore(t, avoid);
        RecordsViaAreWalks(t, Edges(t), path, avoid + {t});
        MapConcat(Recorder(t, path), [[]], WalksVia(Edges(t), avoid + {t}));
        assert Map(Recorder(t, path), [[]]) == [(t, Render(path))] by { StandingStill(t, path); }
      }
    }

    lemma {:induction false} RecordsViaAreWalks(t: TypeId, es: seq<Edge>, path: seq<string>, avoid: set<TypeId>)
      requires es <= Edges(t)
      ensures RecordsVia(es, path, avoid) == Map(Recorder(t, path), WalksVia(es, avoid))
      decreases Left(avoid), |es|
    {
      if es != [] {
        var front, e := es[..|es| - 1], es[|es| - 1];
        RecordsViaAreWalks(t, front, path, avoid);
        RecordsAreWalks(e.target, path + [e.element], avoid);
        var ws := Walks(e.target, avoid);
        MapConcat(Recorder(t, path), WalksVia(front, avoid), Prepend(|front|, ws));
        forall i | 0 <= i < |ws|
          ensures RecordOf(t, path, Prepend(|front|, ws)[i]) == RecordOf(e.target, path + [e.element], ws[i])
        {
          RecordOfStep(t, |front|, ws[i], path);
        }
        assert Map(Recorder(t, path), Prepend(|front|, ws)) == Map(Recorder(e.target, path + [e.element]), ws);
      }
    }

    lemma RecordOfStep(t: TypeId, k: nat, w: Walk, path: seq<string>)
      requires k < |Edges(t)|
      ensures RecordOf(t, path, [k] + w) == RecordOf(Edges(t)[k].target, path + [Edges(t)[k].element], w)
    {
      var e := Edges(t)[k];
      assert ([k] + w)[1..] == w;
      assert path + ([e.element] + Elements(e.target, w)) == path + [e.element] + Elements(e.target, w);
    }

    lemma {:induction false} WalkLengths(t: TypeId, w: Walk)
      requires IsWalk(t, w)
      ensures |Nodes(t, w)| == |w| + 1 && |Elements(t, w)| == |w|
      decreases |w|
    {
      if w != [] {
        WalkLengths(Edges(t)[w[0]].target, w[1..]);
      }
    }

    ghost predicate StepAt(t: TypeId, w: Walk, k: nat) {
      && k < |w| && |Nodes(t, w)| == |w| + 1 && |Elements(t, w)| == |w|
      && w[k] < |Edges(Nodes(t, w)[k])|
      && Edges(Nodes(t, w)[k])[w[k]] == Edge(Elements(t, w)[k], Nodes(t, w)[k + 1])
    }

    /** Edge k of a walk leads from its node k to its node k + 1 and gives its path
        element k. */
    lemma {:induction false} WalkStep(t: TypeId, w: Walk, k: nat)
      requires IsWalk(t, w) && k < |w|
      ensures StepAt(t, w, k)
      decreases |w|
    {
      var next := Edges(t)[w[0]].target;
      WalkLengths(t, w);
      if k > 0 {
        WalkStep(next, w[1..], k - 1);
        StepBehind(t, w, k);
      }
    }

    lemma StepBehind(t: TypeId, w: Walk, k: nat)
      requires IsWalk(t, w) && 0 < k < |w| && StepAt(Edges(t)[w[0]].target, w[1..], k - 1)
      ensures StepAt(t, w, k)
    {
      var first := Edges(t)[w[0]];
      assert Nodes(t, w) == [t] + Nodes(first.target, w[1..]);
      assert Elements(t, w) == [first.element] + Elements(first.target, w[1..]);
      assert w[1..][k - 1] == w[k];
    }

    /** Every record of a search begins with the path at which the search was begun. */
    lemma RecordsPrefix(t: TypeId, path: seq<string>, avoid: set<TypeId>, r: Record)
      requires r in Records(t, path, avoid)
      ensures Render(path) <= r.1
    {
      RecordsExact(t, path, avoid, r);
      var w :| Simple(t, w, avoid) && RecordOf(t, path, w) == r;
      RenderPrefix(path, Elements(t, w));
    }

    lemma AllBegin(t: TypeId, path: seq<string>, avoid: set<TypeId>)
      ensures Begin(Records(t, path, avoid), Render(path))
    {
      forall r | r in Records(t, path, avoid) ensures Render(path) <= r.1 {
        RecordsPrefix(t, path, avoid, r);
      }
    }

    /** The printed path of a walk from the root spells its elements. */
    lemma RecordSpells(t: TypeId, w: Walk)
      ensures Spells(RecordOf(t, [], w).1, Elements(t, w))
    {
      assert [] + Elements(t, w) == Elements(t, w);
      RenderSpells(Elements(t, w));
    }

    /** Exactly the simple walks are recorded, with their end and their printed elements. */
    lemma RecordsExact(t: TypeId, path: seq<string>, avoid: set<TypeId>, r: Record)
      ensures r in Records(t, path, avoid) <==>
              exists w :: Simple(t, w, avoid) && RecordOf(t, path, w) == r
    {
      RecordsAreWalks(t, path, avoid);
      var f := Recorder(t, path);
      InMap(f, Walks(t, avoid), r);
      forall w ensures w in Walks(t, avoid) <==> Simple(t, w, avoid) {
        WalksExact(t, avoid, w);
      }
      forall w ensures f(w) == RecordOf(t, path, w) {}
    }

    /** The records of several roots, one after the other. */
    ghost function AllRecords(roots: seq<TypeId>): seq<Record> { FlatMap(FromRoot(), roots) }

    ghost function FromRoot(): TypeId -> seq<Record> { (t: TypeId) => Records(t, [], {}) }

    /** `r` is the record of a simple walk from `root`. */
    ghost predicate Recorded(root: TypeId, r: Record) {
      exists w :: Simple(root, w, {}) && RecordOf(root, [], w) == r
    }
  }

  // ---------------------------------------------------------------- sequences and sets

  lemma ConcatAssociates<T>(xs: seq<T>, ys: seq<T>, zs: seq<T>)
    ensures xs + ys + zs == xs + (ys + zs)
  {
  }

  lemma SecondPart<T>(xs: seq<T>, ys: seq<T>)
    ensures (xs + ys)[|xs|..] == ys
  {
  }

  lemma InConcat<T>(xs: seq<T>, ys: seq<T>, x: T)
    ensures x in xs + ys <==> x in xs || x in ys
  {
  }

  ghost function Map<A, B>(f: A -> B, xs: seq<A>): seq<B> {
    seq(|xs|, i requires 0 <= i < |xs| => f(xs[i]))
  }

  lemma MapConcat<A, B>(f: A -> B, xs: seq<A>, ys: seq<A>)
    ensures Map(f, xs + ys) == Map(f, xs) + Map(f, ys)
  {
  }

  lemma InMap<A(!new), B>(f: A -> B, xs: seq<A>, y: B)
    ensures y in Map(f, xs) <==> exists x :: x in xs && f(x) == y
  {
    if y in Map(f, xs) {
      var i :| 0 <= i < |xs| && Map(f, xs)[i] == y;
      assert xs[i] in xs && f(xs[i]) == y;
    }
    if x :| x in xs && f(x) == y {
      var i :| 0 <= i < |xs| && xs[i] == x;
      assert Map(f, xs)[i] == y;
    }
  }

  ghost function FlatMap<A, B>(f: A -> seq<B>, xs: seq<A>): seq<B> {
    if xs == [] then [] else FlatMap(f, xs[..|xs| - 1]) + f(xs[|xs| - 1])
  }

  lemma FlatMapPush<A, B>(f: A -> seq<B>, xs: seq<A>, x: A)
    ensures FlatMap(f, xs + [x]) == FlatMap(f, xs) + f(x)
  {
    assert (xs + [x])[..|xs|] == xs;
  }

  ghost function Prepend(k: nat, ws: seq<Walk>): seq<Walk> {
    seq(|ws|, i requires 0 <= i < |ws| => [k] + ws[i])
  }

  lemma InPrepend(k: nat, ws: seq<Walk>, w: Walk)
    ensures w in Prepend(k, ws) <==> w != [] && w[0] == k && w[1..] in ws
  {
    if w in Prepend(k, ws) {
      var i :| 0 <= i < |ws| && Prepend(k, ws)[i] == w;
      assert w[1..] == ws[i];
    }
    if w != [] && w[0] == k && w[1..] in ws {
      var i :| 0 <= i < |ws| && ws[i] == w[1..];
      assert Prepend(k, ws)[i] == w;
    }
  }

  lemma PrependDistinct(k: nat, ws: seq<Walk>)
    requires Distinct(ws)
    ensures Distinct(Prepend(k, ws))
    ensures forall w | w in Prepend(k, ws) :: w != [] && w[0] == k
  {
    var ps := Prepend(k, ws);
    forall i, j | 0 <= i < j < |ps| ensures ps[i] != ps[j] {
      assert ps[i][1..] == ws[i] && ps[j][1..] == ws[j];
    }
  }

  ghost predicate Earlier(v: Walk, w: Walk)
    decreases |v|
  {
    w != [] && (v == [] || v[0] < w[0] || (v[0] == w[0] && Earlier(v[1..], w[1..])))
  }

  ghost predicate InOrder(ws: seq<Walk>) {
    forall i, j | 0 <= i < j < |ws| :: Earlier(ws[i], ws[j])
  }

  lemma PrependInOrder(k: nat, ws: seq<Walk>)
    requires InOrder(ws)
    ensures InOrder(Prepend(k, ws))
    ensures forall w | w in Prepend(k, ws) :: w != [] && w[0] == k
  {
    var ps := Prepend(k, ws);
    forall i, j | 0 <= i < j < |ps| ensures Earlier(ps[i], ps[j]) {
      assert ps[i][1..] == ws[i] && ps[j][1..] == ws[j] && ps[i][0] == k == ps[j][0];
    }
  }

  lemma OrderConcat(xs: seq<Walk>, ys: seq<Walk>)
    requires InOrder(xs) && InOrder(ys)
    requires forall v, w | v in xs && w in ys :: w != [] && (v == [] || v[0] < w[0])
    ensures InOrder(xs + ys)
  {
    var zs := xs + ys;
    forall i, j | 0 <= i < j < |zs| ensures Earlier(zs[i], zs[j]) {
      if i < |xs| <= j {
        assert xs[i] in xs && ys[j - |xs|] in ys;
        assert zs[i] == xs[i] && zs[j] == ys[j - |xs|];
      } else if |xs| <= i {
        assert zs[i] == ys[i - |xs|] && zs[j] == ys[j - |xs|];
      }
    }
  }

  lemma DistinctCons<T>(x: T, xs: seq<T>)
    ensures Distinct([x] + xs) <==> x !in xs && Distinct(xs)
  {
    var ys := [x] + xs;
    assert forall j | 0 < j < |ys| :: ys[j] == xs[j - 1];
    if Distinct(ys) {
      forall i | 0 <= i < |xs| ensures xs[i] != x {
        assert ys[0] != ys[i + 1];
      }
      forall i, j | 0 <= i < j < |xs| ensures xs[i] != xs[j] {
        assert ys[i + 1] != ys[j + 1];
      }
    }
  }

  lemma DistinctConcat<T>(xs: seq<T>, ys: seq<T>)
    requires Distinct(xs) && Distinct(ys) && forall x | x in xs :: x !in ys
    ensures Distinct(xs + ys)
  {
    var zs := xs + ys;
    forall i, j | 0 <= i < j < |zs| ensures zs[i] != zs[j] {
      if i < |xs| <= j {
        assert zs[i] in xs && zs[j] == ys[j - |xs|];
      }
    }
  }

  lemma {:induction false} SetShrinks<T>(small: set<T>, large: set<T>)
    requires small < large
    ensures |small| < |large|
  {
    assert large - small != {};
    var x :| x in large - small;
    SubsetSize(small, large - {x});
  }

  lemma {:induction false} SubsetSize<T>(small: set<T>, large: set<T>)
    requires small <= large
    ensures |small| <= |large|
  {
    if small != {} {
      var x :| x in small;
      SubsetSize(small - {x}, large - {x});
    }
  }
}
