/** `StaticInformation`: the recursive search that records a configuration path
    for every way of reaching a type. */
module PathGatherer {
  import opened TypeGraph

  datatype Registry = Registry(types: seq<TypeInfo>, childOf: set<(TypeId, TypeId)>, objectType: TypeId)

  ghost function Elems(xs: seq<TypeId>): set<TypeId> { set x | x in xs }

  /** What `Get` selects from the records. */
  function PathsTo(tid: TypeId, records: seq<Record>): seq<string> {
    if records == [] then []
    else
      PathsTo(tid, records[..|records| - 1]) +
      if records[|records| - 1].0 == tid then [records[|records| - 1].1] else []
  }

  /** The paths of a type in the order in which they were recorded. */
  lemma {:induction false} PathsToInOrder(tid: TypeId, a: seq<Record>, b: seq<Record>)
    ensures PathsTo(tid, a + b) == PathsTo(tid, a) + PathsTo(tid, b)
    ensures |b| == 1 ==> PathsTo(tid, b) == if b[0].0 == tid then [b[0].1] else []
  {
    if b == [] {
      assert a + b == a;
    } else {
      var front := b[..|b| - 1];
      assert (a + b)[..|a + b| - 1] == a + front;
      PathsToInOrder(tid, a, front);
      ConcatPaths(PathsTo(tid, a), PathsTo(tid, front), if b[|b| - 1].0 == tid then [b[|b| - 1].1] else []);
    }
  }

  lemma ConcatPaths(x: seq<string>, y: seq<string>, z: seq<string>)
    ensures (x + y) + z == x + (y + z)
  {
  }

  lemma {:induction false} PathsToExact(tid: TypeId, records: seq<Record>, path: string)
    ensures path in PathsTo(tid, records) <==> (tid, path) in records
  {
    if records != [] {
      PathsToExact(tid, records[..|records| - 1], path);
      assert records[..|records| - 1] + [records[|records| - 1]] == records;
    }
  }

  /** The records are exactly those of simple walks from the roots. */
  ghost predicate FromRoots(g: Graph, roots: seq<TypeId>, records: seq<Record>) {
    forall r :: r in records <==> exists root | root in roots :: g.Recorded(root, r)
  }

  lemma OneMoreRoot(g: Graph, roots: seq<TypeId>, records: seq<Record>, root: TypeId)
    requires FromRoots(g, roots, records)
    ensures FromRoots(g, roots + [root], records + g.Records(root, [], {}))
  {
    forall r
      ensures r in records + g.Records(root, [], {}) <==> exists x | x in roots + [root] :: g.Recorded(x, r)
    {
      g.RecordsExact(root, [], {}, r);
      InConcat(records, g.Records(root, [], {}), r);
      if g.Recorded(root, r) {
        assert root in roots + [root];
      }
      if x :| x in roots && g.Recorded(x, r) {
        assert x in roots + [root];
      }
    }
  }

  class StaticInformation {
    const registry: Registry
    var output: seq<Record>
    var currentPath: seq<string>
    var alreadyProcessed: seq<TypeId>
    var aggregates: seq<(TypeId, TypeId)>
    var noTids: seq<string>

    function Searched(): Graph
      reads this`aggregates
    {
      Graph(registry.types, registry.childOf, registry.objectType, aggregates)
    }

    /** Between calls from outside both stacks are empty. */
    ghost predicate Idle()
      reads this
    {
      Searched().Valid() && currentPath == [] && alreadyProcessed == []
    }

    constructor (registry: Registry)
      requires Graph(registry.types, registry.childOf, registry.objectType, []).Valid()
      ensures this.registry == registry && Idle() && output == [] && aggregates == [] && noTids == []
    {
      this.registry := registry;
      output, currentPath, alreadyProcessed, aggregates, noTids := [], [], [], [], [];
    }

    /** TypeId::LookupByNameFailSafe. */
    method Lookup(name: string) returns (found: bool, tid: TypeId)
      ensures found ==> tid < |registry.types| && registry.types[tid].name == name
      ensures !found ==> forall t | 0 <= t < |registry.types| :: registry.types[t].name != name
    {
      for i := 0 to |registry.types|
        invariant forall t | 0 <= t < i :: registry.types[t].name != name
      {
        if registry.types[i].name == name {
          return true, i;
        }
      }
      return false, 0;
    }

    /** A pair of known names is recorded; otherwise the first unknown name is. */
    method RecordAggregationInfo(a: string, b: string)
      requires Idle()
      modifies this`aggregates, this`noTids
      ensures Idle()
      ensures if exists t | 0 <= t < |registry.types| :: registry.types[t].name == a then
                if exists t | 0 <= t < |registry.types| :: registry.types[t].name == b then
                  noTids == old(noTids) && |aggregates| == |old(aggregates)| + 1 &&
                  aggregates[..|old(aggregates)|] == old(aggregates) &&
                  var (t, u) := aggregates[|old(aggregates)|];
                  t < |registry.types| && registry.types[t].name == a &&
                  u < |registry.types| && registry.types[u].name == b
                else noTids == old(noTids) + [b] && aggregates == old(aggregates)
              else noTids == old(noTids) + [a] && aggregates == old(aggregates)
    {
      var found, aTid := Lookup(a);
      if !found {
        noTids := noTids + [a];
        return;
      }
      var bTid;
      found, bTid := Lookup(b);
      if !found {
        noTids := noTids + [b];
        return;
      }
      aggregates := aggregates + [(aTid, bTid)];
    }

    method GetCurrentPath() returns (path: string)
      ensures path == Render(currentPath) && Spells(path, currentPath)
    {
      path := "";
      for i := 0 to |currentPath|
        invariant path == Render(currentPath[..i])
      {
        path := path + "/" + currentPath[i];
        assert currentPath[..i + 1][..i] == currentPath[..i];
      }
      assert currentPath[..|currentPath|] == currentPath;
      RenderSpells(currentPath);
    }

    method RecordOutput(tid: TypeId)
      modifies this`output
      ensures output == old(output) + [(tid, Render(currentPath))]
    {
      var path := GetCurrentPath();
      output := output + [(tid, path)];
    }

    method HasAlreadyBeenProcessed(tid: TypeId) returns (processed: bool)
      ensures processed <==> tid in alreadyProcessed
    {
      for i := 0 to |alreadyProcessed|
        invariant tid !in alreadyProcessed[..i]
      {
        if alreadyProcessed[i] == tid {
          return true;
        }
      }
      return false;
    }

    /** DoGather(tid) has recorded `tid` and is going through its edges. */
    ghost predicate Searching(tid: TypeId)
      reads this
    {
      Searched().Valid() && tid < |registry.types| && tid !in alreadyProcessed && Distinct(alreadyProcessed)
    }

    /** Since `start`, exactly the edges `es` of `tid` have been followed. */
    ghost predicate Gathered(tid: TypeId, start: seq<Record>, es: seq<Edge>)
      reads this
    {
      output == start + Searched().RecordsVia(es, currentPath, Elems(alreadyProcessed) + {tid})
    }

    /** The five statements that follow one edge. */
    method Descend(tid: TypeId, edge: Edge)
      requires Searching(tid) && edge.target < |registry.types|
      modifies this`output, this`currentPath, this`alreadyProcessed
      ensures currentPath == old(currentPath) && alreadyProcessed == old(alreadyProcessed)
      ensures output == old(output) +
                Searched().Records(edge.target, currentPath + [edge.element], Elems(alreadyProcessed) + {tid})
      decreases Searched().Left(Elems(alreadyProcessed)), 0
    {
      ghost var ancestors := Elems(alreadyProcessed);
      currentPath := currentPath + [edge.element];
      alreadyProcessed := alreadyProcessed + [tid];
      assert Elems(alreadyProcessed) == ancestors + {tid};
      Searched().AvoidMore(tid, ancestors);
      DoGather(edge.target);
      alreadyProcessed := alreadyProcessed[..|alreadyProcessed| - 1];
      currentPath := currentPath[..|currentPath| - 1];
    }

    method Follow(tid: TypeId, edge: Edge, ghost start: seq<Record>, ghost es: seq<Edge>)
      requires Searching(tid) && Gathered(tid, start, es) && edge.target < |registry.types|
      modifies this`output, this`currentPath, this`alreadyProcessed
      ensures currentPath == old(currentPath) && alreadyProcessed == old(alreadyProcessed)
      ensures Gathered(tid, start, es + [edge])
      decreases Searched().Left(Elems(alreadyProcessed)), 1
    {
      ghost var avoid := Elems(alreadyProcessed) + {tid};
      ghost var seen, more := Searched().RecordsVia(es, currentPath, avoid),
                              Searched().Records(edge.target, currentPath + [edge.element], avoid);
      Descend(tid, edge);
      ConcatAssociates(start, seen, more);
      Searched().RecordsViaPush(es, edge, currentPath, Elems(alreadyProcessed) + {tid});
    }

    /** The body of the attribute loop: pointers to Object itself are not followed. */
    method FollowAttribute(tid: TypeId, info: Attribute, ghost start: seq<Record>, ghost es: seq<Edge>)
      requires Searching(tid) && Gathered(tid, start, es) && Searched().Registered(info.checker)
      modifies this`output, this`currentPath, this`alreadyProcessed
      ensures currentPath == old(currentPath) && alreadyProcessed == old(alreadyProcessed)
      ensures Gathered(tid, start, es + Searched().AttributeEdge(info))
      decreases Searched().Left(Elems(alreadyProcessed)), 2
    {
      match info.checker {
        case Pointer(pointee) =>
          if pointee == registry.objectType {
            assert es + [] == es;
            return;
          }
          Follow(tid, Edge(info.name, pointee), start, es);
        case Container(item) =>
          Follow(tid, Edge(info.name + "/[i]", item), start, es);
        case Other =>
          assert es + [] == es;
      }
    }

    /** The attribute loop of DoGather. */
    method GatherAttributes(tid: TypeId)
      requires Searching(tid)
      modifies this`output, this`currentPath, this`alreadyProcessed
      ensures currentPath == old(currentPath) && alreadyProcessed == old(alreadyProcessed)
      ensures Gathered(tid, old(output), Searched().AttributeEdges(registry.types[tid].attributes))
      decreases Searched().Left(Elems(alreadyProcessed)), 3
    {
      var attributes := registry.types[tid].attributes;
      for i := 0 to |attributes|
        invariant currentPath == old(currentPath) && alreadyProcessed == old(alreadyProcessed)
        invariant Gathered(tid, old(output), Searched().AttributeEdges(attributes[..i]))
      {
        assert attributes[i] in registry.types[tid].attributes;
        FollowAttribute(tid, attributes[i], old(output), Searched().AttributeEdges(attributes[..i]));
        assert attributes[..i + 1][..i] == attributes[..i];
      }
      assert attributes[..|attributes|] == attributes;
    }

    /** The body of the descendant loop. */
    method FollowChild(tid: TypeId, child: TypeId, ghost start: seq<Record>, ghost es: seq<Edge>)
      requires Searching(tid) && Gathered(tid, start, es) && child < |registry.types|
      modifies this`output, this`currentPath, this`alreadyProcessed
      ensures currentPath == old(currentPath) && alreadyProcessed == old(alreadyProcessed)
      ensures Gathered(tid, start, es + Searched().ChildEdge(tid, child))
      decreases Searched().Left(Elems(alreadyProcessed)), 2
    {
      if (child, tid) in registry.childOf {
        var childName := "$" + registry.types[child].name;
        Follow(tid, Edge(childName, child), start, es);
      } else {
        assert es + [] == es;
      }
    }

    /** The descendant loop of DoGather. */
    method GatherChildren(tid: TypeId, ghost start: seq<Record>, ghost before: seq<Edge>)
      requires Searching(tid) && Gathered(tid, start, before)
      modifies this`output, this`currentPath, this`alreadyProcessed
      ensures currentPath == old(currentPath) && alreadyProcessed == old(alreadyProcessed)
      ensures Gathered(tid, start, before + Searched().ChildEdges(tid, registry.types))
      decreases Searched().Left(Elems(alreadyProcessed)), 3
    {
      assert before + [] == before;
      for j := 0 to |registry.types|
        invariant currentPath == old(currentPath) && alreadyProcessed == old(alreadyProcessed)
        invariant Gathered(tid, start, before + Searched().ChildEdges(tid, registry.types[..j]))
      {
        assert registry.types[..j + 1][..j] == registry.types[..j];
        FollowChild(tid, j, start, before + Searched().ChildEdges(tid, registry.types[..j]));
        ConcatAssociates(before, Searched().ChildEdges(tid, registry.types[..j]), Searched().ChildEdge(tid, j));
      }
      assert registry.types[..|registry.types|] == registry.types;
    }

    /** The body of the aggregation loop. */
    method FollowAggregate(tid: TypeId, item: (TypeId, TypeId), ghost start: seq<Record>, ghost es: seq<Edge>)
      requires Searching(tid) && Gathered(tid, start, es) && item.0 < |registry.types| && item.1 < |registry.types|
      modifies this`output, this`currentPath, this`alreadyProcessed
      ensures currentPath == old(currentPath) && alreadyProcessed == old(alreadyProcessed)
      ensures Gathered(tid, start, es + Searched().AggregateEdge(tid, item))
      decreases Searched().Left(Elems(alreadyProcessed)), 2
    {
      if item.0 == tid || item.1 == tid {
        var other := 0;
        if item.0 == tid {
          other := item.1;
        }
        if item.1 == tid {
          other := item.0;
        }
        var name := "$" + registry.types[other].name;
        Follow(tid, Edge(name, other), start, es);
      } else {
        assert es + [] == es;
      }
    }

    /** The aggregation loop of DoGather. */
    method GatherAggregates(tid: TypeId, ghost start: seq<Record>, ghost before: seq<Edge>)
      requires Searching(tid) && Gathered(tid, start, before)
      modifies this`output, this`currentPath, this`alreadyProcessed
      ensures currentPath == old(currentPath) && alreadyProcessed == old(alreadyProcessed)
      ensures Gathered(tid, start, before + Searched().AggregateEdges(tid, aggregates))
      decreases Searched().Left(Elems(alreadyProcessed)), 3
    {
      assert before + [] == before;
      for k := 0 to |aggregates|
        invariant currentPath == old(currentPath) && alreadyProcessed == old(alreadyProcessed)
        invariant Gathered(tid, start, before + Searched().AggregateEdges(tid, aggregates[..k]))
      {
        assert aggregates[..k + 1][..k] == aggregates[..k];
        FollowAggregate(tid, aggregates[k], start, before + Searched().AggregateEdges(tid, aggregates[..k]));
        ConcatAssociates(before, Searched().AggregateEdges(tid, aggregates[..k]),
                         Searched().AggregateEdge(tid, aggregates[k]));
      }
      assert aggregates[..|aggregates|] == aggregates;
    }

    /** The three loops, one after the other. */
    method GatherEdges(tid: TypeId)
      requires Searching(tid)
      modifies this`output, this`currentPath, this`alreadyProcessed
      ensures currentPath == old(currentPath) && alreadyProcessed == old(alreadyProcessed)
      ensures Gathered(tid, old(output), Searched().Edges(tid))
      decreases Searched().Left(Elems(alreadyProcessed)), 4
    {
      ghost var start, es := output, Searched().AttributeEdges(registry.types[tid].attributes);
      GatherAttributes(tid);
      GatherChildren(tid, start, es);
      GatherAggregates(tid, start, es + Searched().ChildEdges(tid, registry.types));
    }

    /** The search: it restores both stacks, keeps the ancestor list free of
        repetitions, terminates on every finite graph, cyclic or not, and only
        appends, in depth-first order, the records of the simple walks from `tid`. */
    method DoGather(tid: TypeId)
      requires Searched().Valid() && tid < |registry.types| && Distinct(alreadyProcessed)
      modifies this`output, this`currentPath, this`alreadyProcessed
      ensures currentPath == old(currentPath) && alreadyProcessed == old(alreadyProcessed)
      ensures output == old(output) + Searched().Records(tid, currentPath, Elems(alreadyProcessed))
      ensures |old(output)| <= |output| && Begin(output[|old(output)|..], Render(currentPath))
      decreases Searched().Left(Elems(alreadyProcessed)), 5
    {
      ghost var before := output;
      Searched().AllBegin(tid, currentPath, Elems(alreadyProcessed));
      SecondPart(before, Searched().Records(tid, currentPath, Elems(alreadyProcessed)));
      var processed := HasAlreadyBeenProcessed(tid);
      if processed {
        return;
      }
      RecordOutput(tid);
      GatherEdges(tid);
      Searched().RecordsUnfold(before, tid, currentPath, Elems(alreadyProcessed));
    }

    /** Uniquefy works on a copy of `output`, so nothing follows DoGather here. */
    method Gather(tid: TypeId)
      requires Idle() && tid < |registry.types|
      modifies this`output, this`currentPath, this`alreadyProcessed
      ensures Idle() && output == old(output) + Searched().Records(tid, [], {})
      ensures forall r :: r in output[|old(output)|..] <==> Searched().Recorded(tid, r)
      ensures |output| == |old(output)| + |Searched().Walks(tid, {})|
    {
      DoGather(tid);
      assert Elems(alreadyProcessed) == {};
      assert output[|old(output)|..] == Searched().Records(tid, [], {});
      forall r ensures r in Searched().Records(tid, [], {}) <==> Searched().Recorded(tid, r) {
        Searched().RecordsExact(tid, [], {}, r);
      }
      Searched().RecordsAreWalks(tid, [], {});
    }

    /** The loop of GetTypicalAggregations over the root namespace objects. */
    method GatherRoots(roots: seq<TypeId>)
      requires Idle() && output == [] && forall k | 0 <= k < |roots| :: roots[k] < |registry.types|
      modifies this`output, this`currentPath, this`alreadyProcessed
      ensures Idle() && output == Searched().AllRecords(roots)
      ensures FromRoots(Searched(), roots, output)
    {
      for i := 0 to |roots|
        invariant Idle() && output == Searched().AllRecords(roots[..i])
        invariant FromRoots(Searched(), roots[..i], output)
      {
        ghost var before := output;
        Gather(roots[i]);
        assert roots[..i + 1] == roots[..i] + [roots[i]];
        FlatMapPush(Searched().FromRoot(), roots[..i], roots[i]);
        OneMoreRoot(Searched(), roots[..i], before, roots[i]);
      }
      assert roots[..|roots|] == roots;
    }

    method Get(tid: TypeId) returns (paths: seq<string>)
      ensures paths == PathsTo(tid, output)
      ensures forall path :: path in paths <==> (tid, path) in output
    {
      paths := [];
      for i := 0 to |output|
        invariant paths == PathsTo(tid, output[..i])
      {
        assert output[..i + 1][..i] == output[..i];
        if output[i].0 == tid {
          paths := paths + [output[i].1];
        }
      }
      assert output[..|output|] == output;
      forall path ensures path in paths <==> (tid, path) in output {
        PathsToExact(tid, output, path);
      }
    }
  }
}
