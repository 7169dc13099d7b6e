/** The paired tracers of tcp-variants-comparison: congestion window and slow-start
    threshold, each written to its own stream and, when it changes, repeated in the
    other's. */
module Tracers {
  import opened Basics
  import opened ContextPath

  /** A line of a trace file: the value before the first change, at time "0.0", or a
      value at the time of a change. */
  datatype Line = Initial(value: nat) | Sample(time: real, value: nat)

  datatype Kind = Cwnd | SsThresh

  function Other(k: Kind): Kind { if k == Cwnd then SsThresh else Cwnd }

  /** A change reported to one of the two tracers. */
  datatype Change = Change(kind: Kind, time: real, oldval: nat, newval: nat)

  // ---------------------------------------------------------------- what a history should leave

  predicate Started(h: seq<Change>, k: Kind) {
    h != [] && (h[|h| - 1].kind == k || Started(h[..|h| - 1], k))
  }

  /** The value last reported, 0 if none was. */
  function Latest(h: seq<Change>, k: Kind): nat {
    if h == [] then 0
    else if h[|h| - 1].kind == k then h[|h| - 1].newval
    else Latest(h[..|h| - 1], k)
  }

  /** The stream of a kind: nothing until its first change; then the value before that
      change, and from there on, for every change of either kind, the value then
      current. */
  function Samples(h: seq<Change>, k: Kind): seq<Line> {
    if !Started(h, k) then []
    else
      var front, e := h[..|h| - 1], h[|h| - 1];
      (if Started(front, k) then Samples(front, k) else [Initial(e.oldval)]) + [Sample(e.time, Latest(h, k))]
  }

  lemma HistoryPush(h: seq<Change>, e: Change, k: Kind)
    ensures Started(h + [e], k) <==> e.kind == k || Started(h, k)
    ensures Latest(h + [e], k) == if e.kind == k then e.newval else Latest(h, k)
    ensures Samples(h + [e], k) ==
            if Started(h, k) then Samples(h, k) + [Sample(e.time, Latest(h + [e], k))]
            else if e.kind == k then [Initial(e.oldval), Sample(e.time, e.newval)]
            else []
  {
  }

  /** A started stream ends in the current value, at the time of the last change, and
      its 0.0 line is the first and only one. */
  lemma {:induction false} SamplesShape(h: seq<Change>, k: Kind)
    ensures Started(h, k) ==>
              var s := Samples(h, k);
              && |s| >= 2 && s[0].Initial?
              && (forall i | 1 <= i < |s| :: s[i].Sample?)
              && s[|s| - 1] == Sample(h[|h| - 1].time, Latest(h, k))
  {
    if Started(h, k) {
      SamplesShape(h[..|h| - 1], k);
    }
  }

  predicate InOrder(h: seq<Change>) {
    forall i, j | 0 <= i < j < |h| :: h[i].time <= h[j].time
  }

  predicate SamplesInOrder(s: seq<Line>) {
    forall i, j | 1 <= i < j < |s| :: s[i].Sample? && s[j].Sample? ==> s[i].time <= s[j].time
  }

  lemma {:induction false} SamplesOrdered(h: seq<Change>, k: Kind)
    requires InOrder(h)
    ensures SamplesInOrder(Samples(h, k))
    ensures forall i | 0 <= i < |Samples(h, k)| && Samples(h, k)[i].Sample? :: Samples(h, k)[i].time <= h[|h| - 1].time
  {
    if Started(h, k) {
      SamplesOrdered(h[..|h| - 1], k);
    }
  }

  /** Changes since both kinds started, the starting one included. */
  function Joint(h: seq<Change>): nat {
    if Started(h, Cwnd) && Started(h, SsThresh) then 1 + Joint(h[..|h| - 1]) else 0
  }

  /** The last n lines of both are samples, pairwise of the same time. */
  predicate Paired(c: seq<Line>, s: seq<Line>, n: nat) {
    n == 0 ||
    (c != [] && s != []
     && c[|c| - 1].Sample? && s[|s| - 1].Sample? && c[|c| - 1].time == s[|s| - 1].time
     && Paired(c[..|c| - 1], s[..|s| - 1], n - 1))
  }

  lemma SamplesFront(h: seq<Change>, k: Kind)
    requires Started(h, k)
    ensures Samples(h, k) != []
    ensures var s := Samples(h, k); s[|s| - 1] == Sample(h[|h| - 1].time, Latest(h, k))
    ensures Started(h[..|h| - 1], k) ==> Samples(h, k)[..|Samples(h, k)| - 1] == Samples(h[..|h| - 1], k)
  {
  }

  /** From the moment both streams are open they stay paired. */
  lemma {:induction false} StreamsPaired(h: seq<Change>)
    ensures Paired(Samples(h, Cwnd), Samples(h, SsThresh), Joint(h))
  {
    if Joint(h) > 0 {
      StreamsPaired(h[..|h| - 1]);
      SamplesFront(h, Cwnd);
      SamplesFront(h, SsThresh);
    }
  }

  // ---------------------------------------------------------------- the tracers

  /** What happens to the traces: a node is set up, its streams are opened, a tracer
      is called with the context of a node. */
  datatype Event =
    | SetUp(node: nat)
    | TraceCwnd(node: nat)
    | TraceSsThresh(node: nat)
    | Call(context: string, change: Change)

  /** The changes of one node. */
  function History(events: seq<Event>, node: nat): seq<Change> {
    if events == [] then []
    else
      var front, e := History(events[..|events| - 1], node), events[|events| - 1];
      if e.Call? && NodeIdFromContext(e.context) == Some(node) then front + [e.change] else front
  }

  /** The event that opens a node's stream of a kind. */
  function Open(node: nat, k: Kind): Event { if k == Cwnd then TraceCwnd(node) else TraceSsThresh(node) }

  /** Each node is set up once, then its streams are opened once each, and a tracer is
      called only with a context that names a node whose stream of that kind is open. */
  predicate Legal(events: seq<Event>, e: Event) {
    match e
    case SetUp(node) => e !in events
    case TraceCwnd(node) => SetUp(node) in events && e !in events
    case TraceSsThresh(node) => SetUp(node) in events && e !in events
    case Call(context, change) =>
      var id := NodeIdFromContext(context);
      id.Some? && Open(id.value, change.kind) in events
  }

  /** The state of one node and kind, as the node's own history makes it. */
  ghost predicate Holds(events: seq<Event>, node: nat, k: Kind, first: bool, stream: Option<seq<Line>>, value: nat) {
    var h := History(events, node);
    && first == (SetUp(node) in events && !Started(h, k))
    && stream == (if Open(node, k) in events then Some(Samples(h, k)) else None)
    && value == Latest(h, k)
    && (Open(node, k) in events ==> SetUp(node) in events)
    && (Started(h, k) ==> Open(node, k) in events)
  }

  lemma PushEvent(events: seq<Event>, e: Event, node: nat)
    ensures History(events + [e], node) ==
            if e.Call? && NodeIdFromContext(e.context) == Some(node) then History(events, node) + [e.change]
            else History(events, node)
  {
  }

  /** An event about another node changes nothing. */
  lemma OtherNode(events: seq<Event>, e: Event, node: nat, k: Kind, first: bool, stream: Option<seq<Line>>, value: nat)
    requires Holds(events, node, k, first, stream, value)
    requires e != SetUp(node) && e != Open(node, k)
    requires e.Call? ==> NodeIdFromContext(e.context) != Some(node)
    ensures Holds(events + [e], node, k, first, stream, value)
  {
  }

  /** The stream of the changed kind. */
  lemma AfterOwnChange(events: seq<Event>, e: Event, node: nat, first: bool, lines: seq<Line>, value: nat)
    requires Legal(events, e) && e.Call? && NodeIdFromContext(e.context) == Some(node)
    requires Holds(events, node, e.change.kind, first, Some(lines), value)
    ensures Holds(events + [e], node, e.change.kind, false,
                  Some(lines + (if first then [Initial(e.change.oldval)] else []) + [Sample(e.change.time, e.change.newval)]),
                  e.change.newval)
  {
    PushEvent(events, e, node);
    HistoryPush(History(events, node), e.change, e.change.kind);
    if first {
      assert lines + [Initial(e.change.oldval)] + [Sample(e.change.time, e.change.newval)]
          == [Initial(e.change.oldval), Sample(e.change.time, e.change.newval)];
    } else {
      assert lines + [] == lines;
    }
  }

  /** The other kind's stream, not open or not yet started. */
  lemma AfterOtherChangeIdle(events: seq<Event>, e: Event, node: nat, k: Kind, stream: Option<seq<Line>>, value: nat)
    requires e.Call? && NodeIdFromContext(e.context) == Some(node) && e.change.kind != k
    requires Holds(events, node, k, true, stream, value)
    ensures Holds(events + [e], node, k, true, stream, value)
  {
  }

  lemma AfterOtherChange(events: seq<Event>, e: Event, node: nat, k: Kind, stream: Option<seq<Line>>, value: nat)
    requires Legal(events, e) && e.Call? && NodeIdFromContext(e.context) == Some(node) && e.change.kind != k
    requires SetUp(node) in events && Holds(events, node, k, false, stream, value)
    ensures stream.Some?
    ensures Holds(events + [e], node, k, false, Some(stream.value + [Sample(e.change.time, value)]), value)
  {
  }

  /** Once both of a node's streams have started, both end at the same time, that of
      its last change, each with its current value. */
  lemma StartedStreamsAgree(events: seq<Event>, node: nat, cwnd: seq<Line>, ssThresh: seq<Line>, cwndValue: nat, ssThreshValue: nat)
    requires Holds(events, node, Cwnd, false, Some(cwnd), cwndValue)
    requires Holds(events, node, SsThresh, false, Some(ssThresh), ssThreshValue)
    ensures History(events, node) != [] && cwnd != [] && ssThresh != []
    ensures var h := History(events, node);
            var t := h[|h| - 1].time;
            cwnd[|cwnd| - 1] == Sample(t, cwndValue) && ssThresh[|ssThresh| - 1] == Sample(t, ssThreshValue)
  {
  }

  function Get<V>(m: map<nat, V>, k: nat, default: V): V {
    if k in m then m[k] else default
  }

  function Lookup<V>(m: map<nat, V>, k: nat): Option<V> {
    if k in m then Some(m[k]) else None
  }

  /** The three maps of a kind. */
  ghost predicate AllHold(events: seq<Event>, k: Kind, first: map<nat, bool>, stream: map<nat, seq<Line>>, value: map<nat, nat>) {
    forall node: nat :: Holds(events, node, k, Get(first, node, false), Lookup(stream, node), Get(value, node, 0))
  }

  lemma SetUpHolds(events: seq<Event>, n: nat, k: Kind, first: map<nat, bool>, stream: map<nat, seq<Line>>, value: map<nat, nat>)
    requires AllHold(events, k, first, stream, value) && Legal(events, SetUp(n))
    ensures AllHold(events + [SetUp(n)], k, first[n := true], stream, value)
  {
  }

  lemma OpenHolds(events: seq<Event>, n: nat, k: Kind, first: map<nat, bool>, stream: map<nat, seq<Line>>, value: map<nat, nat>)
    requires AllHold(events, k, first, stream, value) && Legal(events, Open(n, k))
    ensures AllHold(events + [Open(n, k)], k, first, stream[n := []], value)
  {
  }

  lemma OpenOtherHolds(events: seq<Event>, n: nat, k: Kind, first: map<nat, bool>, stream: map<nat, seq<Line>>, value: map<nat, nat>)
    requires AllHold(events, k, first, stream, value)
    ensures AllHold(events + [Open(n, Other(k))], k, first, stream, value)
  {
  }

  /** The maps of the kind a tracer is called for. */
  lemma OwnChangeHolds(events: seq<Event>, e: Event, n: nat,
                       first: map<nat, bool>, stream: map<nat, seq<Line>>, value: map<nat, nat>,
                       newFirst: map<nat, bool>, newStream: map<nat, seq<Line>>)
    requires Legal(events, e) && e.Call? && NodeIdFromContext(e.context) == Some(n)
    requires AllHold(events, e.change.kind, first, stream, value)
    requires forall m: nat :: Get(newFirst, m, false) == if m == n then false else Get(first, m, false)
    requires n in stream && newStream == stream[n := stream[n]
               + (if Get(first, n, false) then [Initial(e.change.oldval)] else [])
               + [Sample(e.change.time, e.change.newval)]]
    ensures AllHold(events + [e], e.change.kind, newFirst, newStream, value[n := e.change.newval])
  {
    var k, newValue := e.change.kind, value[n := e.change.newval];
    forall m: nat
      ensures Holds(events + [e], m, k, Get(newFirst, m, false), Lookup(newStream, m), Get(newValue, m, 0))
    {
      if m == n {
        AfterOwnChange(events, e, n, Get(first, n, false), stream[n], Get(value, n, 0));
      } else {
        OtherNode(events, e, m, k, Get(first, m, false), Lookup(stream, m), Get(value, m, 0));
      }
    }
  }

  /** The maps of the other kind. */
  lemma OtherChangeHolds(events: seq<Event>, e: Event, n: nat, k: Kind,
                         first: map<nat, bool>, stream: map<nat, seq<Line>>, value: map<nat, nat>,
                         newStream: map<nat, seq<Line>>)
    requires Legal(events, e) && e.Call? && NodeIdFromContext(e.context) == Some(n) && e.change.kind != k
    requires SetUp(n) in events && AllHold(events, k, first, stream, value)
    requires if Get(first, n, false) then newStream == stream
             else n in stream && newStream == stream[n := stream[n] + [Sample(e.change.time, Get(value, n, 0))]]
    ensures AllHold(events + [e], k, first, newStream, value)
  {
    forall m: nat
      ensures Holds(events + [e], m, k, Get(first, m, false), Lookup(newStream, m), Get(value, m, 0))
    {
      if m != n {
        OtherNode(events, e, m, k, Get(first, m, false), Lookup(stream, m), Get(value, m, 0));
      } else if Get(first, n, false) {
        AfterOtherChangeIdle(events, e, n, k, Lookup(stream, n), Get(value, n, 0));
      } else {
        AfterOtherChange(events, e, n, k, Lookup(stream, n), Get(value, n, 0));
      }
    }
  }

  /** What a legal call finds: its own stream open and, if the other kind has started,
      that one too. */
  lemma CallIsSafe(events: seq<Event>, e: Event, n: nat,
                   first: map<nat, bool>, stream: map<nat, seq<Line>>, value: map<nat, nat>,
                   otherFirst: map<nat, bool>, otherStream: map<nat, seq<Line>>, otherValue: map<nat, nat>)
    requires Legal(events, e) && e.Call? && NodeIdFromContext(e.context) == Some(n)
    requires AllHold(events, e.change.kind, first, stream, value)
    requires AllHold(events, Other(e.change.kind), otherFirst, otherStream, otherValue)
    ensures SetUp(n) in events && n in stream
    ensures !Get(otherFirst, n, false) ==> n in otherStream
  {
    assert Holds(events, n, e.change.kind, Get(first, n, false), Lookup(stream, n), Get(value, n, 0));
    assert Holds(events, n, Other(e.change.kind), Get(otherFirst, n, false), Lookup(otherStream, n), Get(otherValue, n, 0));
  }

  class Traces {
    var firstCwnd: map<nat, bool>
    var firstSshThr: map<nat, bool>
    var cWndStream: map<nat, seq<Line>>
    var ssThreshStream: map<nat, seq<Line>>
    var cWndValue: map<nat, nat>
    var ssThreshValue: map<nat, nat>

    ghost predicate After(events: seq<Event>)
      reads this
    {
      && AllHold(events, Cwnd, firstCwnd, cWndStream, cWndValue)
      && AllHold(events, SsThresh, firstSshThr, ssThreshStream, ssThreshValue)
    }

    constructor ()
      ensures After([])
    {
      firstCwnd, firstSshThr := map[], map[];
      cWndStream, ssThreshStream := map[], map[];
      cWndValue, ssThreshValue := map[], map[];
    }

    method SetUpNode(node: nat)
      modifies this`firstCwnd, this`firstSshThr
      ensures firstCwnd == old(firstCwnd)[node := true]
      ensures firstSshThr == old(firstSshThr)[node := true]
    {
      firstCwnd := firstCwnd[node := true];
      firstSshThr := firstSshThr[node := true];
    }

    method TraceCwnd(node: nat)
      modifies this`cWndStream
      ensures cWndStream == old(cWndStream)[node := []]
    {
      cWndStream := cWndStream[node := []];
    }

    method TraceSsThresh(node: nat)
      modifies this`ssThreshStream
      ensures ssThreshStream == old(ssThreshStream)[node := []]
    {
      ssThreshStream := ssThreshStream[node := []];
    }

    /** A stream that is not open is a null pointer, so a call needs its own stream
        and, once the other kind has started, that one too. */
    method CwndTracer(context: string, time: real, oldval: nat, newval: nat)
      requires NodeIdFromContext(context).Some?
      requires NodeIdFromContext(context).value in cWndStream
      requires !Get(firstSshThr, NodeIdFromContext(context).value, false) ==> NodeIdFromContext(context).value in ssThreshStream
      modifies this`firstCwnd, this`cWndStream, this`cWndValue, this`ssThreshStream
      ensures var n := NodeIdFromContext(context).value;
              && Get(firstCwnd, n, false) == false
              && (forall m: nat | m != n :: Get(firstCwnd, m, false) == Get(old(firstCwnd), m, false))
              && cWndStream == old(cWndStream)[n := old(cWndStream)[n]
                   + (if Get(old(firstCwnd), n, false) then [Initial(oldval)] else []) + [Sample(time, newval)]]
              && cWndValue == old(cWndValue)[n := newval]
              && ssThreshStream == (if Get(firstSshThr, n, false) then old(ssThreshStream)
                   else old(ssThreshStream)[n := old(ssThreshStream)[n] + [Sample(time, Get(ssThreshValue, n, 0))]])
    {
      var nodeId := NodeIdFromContext(context).value;
      if Get(firstCwnd, nodeId, false) {
        cWndStream := cWndStream[nodeId := cWndStream[nodeId] + [Initial(oldval)]];
        firstCwnd := firstCwnd[nodeId := false];
      }
      cWndStream := cWndStream[nodeId := cWndStream[nodeId] + [Sample(time, newval)]];
      assert old(cWndStream)[nodeId] + [] == old(cWndStream)[nodeId];
      assert cWndStream == old(cWndStream)[nodeId := cWndStream[nodeId]];
      cWndValue := cWndValue[nodeId := newval];
      if !Get(firstSshThr, nodeId, false) {
        ssThreshStream := ssThreshStream[nodeId := ssThreshStream[nodeId] + [Sample(time, Get(ssThreshValue, nodeId, 0))]];
      }
    }

    method SsThreshTracer(context: string, time: real, oldval: nat, newval: nat)
      requires NodeIdFromContext(context).Some?
      requires NodeIdFromContext(context).value in ssThreshStream
      requires !Get(firstCwnd, NodeIdFromContext(context).value, false) ==> NodeIdFromContext(context).value in cWndStream
      modifies this`firstSshThr, this`ssThreshStream, this`ssThreshValue, this`cWndStream
      ensures var n := NodeIdFromContext(context).value;
              && Get(firstSshThr, n, false) == false
              && (forall m: nat | m != n :: Get(firstSshThr, m, false) == Get(old(firstSshThr), m, false))
              && ssThreshStream == old(ssThreshStream)[n := old(ssThreshStream)[n]
                   + (if Get(old(firstSshThr), n, false) then [Initial(oldval)] else []) + [Sample(time, newval)]]
              && ssThreshValue == old(ssThreshValue)[n := newval]
              && cWndStream == (if Get(firstCwnd, n, false) then old(cWndStream)
                   else old(cWndStream)[n := old(cWndStream)[n] + [Sample(time, Get(cWndValue, n, 0))]])
    {
      var nodeId := NodeIdFromContext(context).value;
      if Get(firstSshThr, nodeId, false) {
        ssThreshStream := ssThreshStream[nodeId := ssThreshStream[nodeId] + [Initial(oldval)]];
        firstSshThr := firstSshThr[nodeId := false];
      }
      ssThreshStream := ssThreshStream[nodeId := ssThreshStream[nodeId] + [Sample(time, newval)]];
      assert old(ssThreshStream)[nodeId] + [] == old(ssThreshStream)[nodeId];
      assert ssThreshStream == old(ssThreshStream)[nodeId := ssThreshStream[nodeId]];
      ssThreshValue := ssThreshValue[nodeId := newval];
      if !Get(firstCwnd, nodeId, false) {
        cWndStream := cWndStream[nodeId := cWndStream[nodeId] + [Sample(time, Get(cWndValue, nodeId, 0))]];
      }
    }

    method Handle(ghost events: seq<Event>, e: Event)
      requires After(events) && Legal(events, e)
      modifies this
      ensures After(events + [e])
    {
      match e
      case SetUp(node) =>
        SetUpHolds(events, node, Cwnd, firstCwnd, cWndStream, cWndValue);
        SetUpHolds(events, node, SsThresh, firstSshThr, ssThreshStream, ssThreshValue);
        SetUpNode(node);
      case TraceCwnd(node) =>
        OpenHolds(events, node, Cwnd, firstCwnd, cWndStream, cWndValue);
        OpenOtherHolds(events, node, SsThresh, firstSshThr, ssThreshStream, ssThreshValue);
        TraceCwnd(node);
      case TraceSsThresh(node) =>
        OpenOtherHolds(events, node, Cwnd, firstCwnd, cWndStream, cWndValue);
        OpenHolds(events, node, SsThresh, firstSshThr, ssThreshStream, ssThreshValue);
        TraceSsThresh(node);
      case Call(context, change) =>
        if change.kind == Cwnd {
          HandleCwnd(events, e);
        } else {
          HandleSsThresh(events, e);
        }
    }

    method HandleCwnd(ghost events: seq<Event>, e: Event)
      requires After(events) && Legal(events, e) && e.Call? && e.change.kind == Cwnd
      modifies this
      ensures After(events + [e])
    {
      ghost var n := NodeIdFromContext(e.context).value;
      CallIsSafe(events, e, n, firstCwnd, cWndStream, cWndValue, firstSshThr, ssThreshStream, ssThreshValue);
      CwndTracer(e.context, e.change.time, e.change.oldval, e.change.newval);
      OwnChangeHolds(events, e, n, old(firstCwnd), old(cWndStream), old(cWndValue), firstCwnd, cWndStream);
      OtherChangeHolds(events, e, n, SsThresh, firstSshThr, old(ssThreshStream), ssThreshValue, ssThreshStream);
    }

    method HandleSsThresh(ghost events: seq<Event>, e: Event)
      requires After(events) && Legal(events, e) && e.Call? && e.change.kind == SsThresh
      modifies this
      ensures After(events + [e])
    {
      ghost var n := NodeIdFromContext(e.context).value;
      CallIsSafe(events, e, n, firstSshThr, ssThreshStream, ssThreshValue, firstCwnd, cWndStream, cWndValue);
      SsThreshTracer(e.context, e.change.time, e.change.oldval, e.change.newval);
      OwnChangeHolds(events, e, n, old(firstSshThr), old(ssThreshStream), old(ssThreshValue), firstSshThr, ssThreshStream);
      OtherChangeHolds(events, e, n, Cwnd, firstCwnd, old(cWndStream), cWndValue, cWndStream);
    }

    /** Any legal run: no call fails, and afterwards every node's streams and values
        are what its own changes make them. */
    method Replay(events: seq<Event>)
      requires After([])
      requires forall i | 0 <= i < |events| :: Legal(events[..i], events[i])
      modifies this
      ensures After(events)
    {
      for i := 0 to |events|
        invariant After(events[..i])
      {
        assert events[..i + 1] == events[..i] + [events[i]];
        Handle(events[..i], events[i]);
      }
      assert events[..|events|] == events;
    }
  }

  /** Calls that name other nodes leave no trace in a node's history. */
  lemma {:induction false} OnlyOwnCallsCount(events: seq<Event>, more: seq<Event>, node: nat)
    requires forall e | e in more :: e.Call? ==> NodeIdFromContext(e.context) != Some(node)
    ensures History(events + more, node) == History(events, node)
  {
    if more == [] {
      assert events + more == events;
    } else {
      var front := more[..|more| - 1];
      assert (events + more)[..|events + more| - 1] == events + front;
      OnlyOwnCallsCount(events, front, node);
    }
  }
}
