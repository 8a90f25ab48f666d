/** The call traces by which an entry point reaches a definition. */
module CallGraph {
  import opened Collections

  datatype Callee = Callee(defId: nat, calls: set<nat>)

  type Graph = seq<Callee>
  type Trace = seq<nat>

  /** Every call is of a callee that the graph has. */
  predicate Closed(graph: Graph) {
    forall i, c | 0 <= i < |graph| && c in graph[i].calls :: c < |graph|
  }

  /** A path of calls that enters no callee twice. */
  predicate SimplePath(graph: Graph, p: Trace) {
    && p != []
    && (forall i | 0 <= i < |p| :: p[i] < |graph|)
    && Distinct(p)
    && (forall i | 0 <= i < |p| - 1 :: p[i + 1] in graph[p[i]].calls)
  }

  /** A simple path that goes on from a trace, and ends at the first callee of the target from its last one on. */
  predicate Completes(graph: Graph, p: Trace, trace: Trace, target: nat)
    requires trace != []
  {
    && SimplePath(graph, p)
    && trace <= p
    && graph[p[|p| - 1]].defId == target
    && forall i | |trace| - 1 <= i < |p| - 1 :: graph[p[i]].defId != target
  }

  function Below(n: nat): (s: set<nat>)
    ensures |s| == n && forall x: nat :: x in s <==> x < n
  {
    if n == 0 then {} else Below(n - 1) + {n - 1}
  }

  /** So the search ends, however the calls of the graph cycle. */
  lemma SimplePathsAreShort(graph: Graph, p: Trace)
    requires SimplePath(graph, p)
    ensures |p| <= |graph|
  {
    ElementsSize(p);
    SubsetSize(Elements(p), Below(|graph|));
  }

  lemma PathPushed(graph: Graph, trace: Trace, c: nat)
    requires Closed(graph) && SimplePath(graph, trace) && c in graph[trace[|trace| - 1]].calls && c !in trace
    ensures SimplePath(graph, trace + [c])
  {}

  /** The target ends a trace. */
  lemma CompletesHere(graph: Graph, p: Trace, trace: Trace, target: nat)
    requires SimplePath(graph, trace) && graph[trace[|trace| - 1]].defId == target
    ensures Completes(graph, p, trace, target) <==> p == trace
  {
    if trace <= p && |trace| < |p| {
      assert p[|trace| - 1] == trace[|trace| - 1];
    } else if trace <= p {
      assert p == trace;
    }
  }

  /** Past a callee of another definition, each path goes on by one of the calls, and by no other path's. */
  lemma CompletesByCall(graph: Graph, p: Trace, trace: Trace, target: nat)
    requires Closed(graph) && SimplePath(graph, trace) && graph[trace[|trace| - 1]].defId != target
    ensures Completes(graph, p, trace, target) <==>
      && |trace| < |p|
      && p[|trace|] in graph[trace[|trace| - 1]].calls && p[|trace|] !in trace
      && Completes(graph, p, trace + [p[|trace|]], target)
  {
    if trace <= p && |trace| < |p| {
      assert p[..|trace| + 1] == trace + [p[|trace|]];
      assert p[|trace| - 1] == trace[|trace| - 1];
    }
  }

  /** The path is one of those that go on from the trace by one of these calls. */
  predicate GoesOnBy(graph: Graph, p: Trace, trace: Trace, target: nat, calls: set<nat>) {
    && |trace| < |p|
    && p[|trace|] in calls && p[|trace|] !in trace
    && Completes(graph, p, trace + [p[|trace|]], target)
  }

  /** All paths by some of the calls, each once. */
  ghost predicate AreAll(found: seq<Trace>, graph: Graph, trace: Trace, target: nat, calls: set<nat>) {
    Distinct(found) && forall p :: p in found <==> GoesOnBy(graph, p, trace, target, calls)
  }

  lemma OneMoreCall(found: seq<Trace>, more: seq<Trace>, graph: Graph, trace: Trace, target: nat, calls: set<nat>, c: nat)
    requires trace != [] && AreAll(found, graph, trace, target, calls) && c !in calls && c !in trace
    requires Distinct(more) && forall p :: p in more <==> Completes(graph, p, trace + [c], target)
    ensures AreAll(found + more, graph, trace, target, calls + {c})
  {
    forall p
      ensures Completes(graph, p, trace + [c], target) <==> GoesOnBy(graph, p, trace, target, {c})
    {
      if trace + [c] <= p {
        assert p[|trace|] == c;
      }
    }
    hide Completes;
    forall i, j | 0 <= i < |found| && 0 <= j < |more|
      ensures found[i] != more[j]
    {
      assert found[i] in found && more[j] in more;
    }
  }

  lemma JustHere(graph: Graph, trace: Trace, target: nat)
    requires SimplePath(graph, trace) && graph[trace[|trace| - 1]].defId == target
    ensures Distinct([trace]) && forall p :: p in [trace] <==> Completes(graph, p, trace, target)
  {
    forall p
      ensures p in [trace] <==> Completes(graph, p, trace, target)
    {
      CompletesHere(graph, p, trace, target);
    }
  }

  lemma NoCallYet(graph: Graph, trace: Trace, target: nat)
    ensures AreAll([], graph, trace, target, {})
  {}

  lemma NoCallBack(found: seq<Trace>, graph: Graph, trace: Trace, target: nat, calls: set<nat>, c: nat)
    requires AreAll(found, graph, trace, target, calls) && c in trace
    ensures AreAll(found, graph, trace, target, calls + {c})
  {}

  lemma AllCalls(found: seq<Trace>, graph: Graph, trace: Trace, target: nat)
    requires Closed(graph) && SimplePath(graph, trace) && graph[trace[|trace| - 1]].defId != target
    requires AreAll(found, graph, trace, target, graph[trace[|trace| - 1]].calls)
    ensures Distinct(found) && forall p :: p in found <==> Completes(graph, p, trace, target)
  {
    forall p
      ensures p in found <==> Completes(graph, p, trace, target)
    {
      CompletesByCall(graph, p, trace, target);
    }
  }

  class Search {
    const graph: Graph
    const target: nat
    var traces: seq<Trace>
    var trace: Trace

    constructor (graph: Graph, target: nat)
      ensures this.graph == graph && this.target == target && traces == [] && trace == []
    {
      this.graph, this.target, traces, trace := graph, target, [], [];
    }

    /** Adds all paths that complete the trace, each once, and leaves the trace as it was. */
    method Build()
      requires Closed(graph) && SimplePath(graph, trace)
      modifies this
      ensures trace == old(trace)
      ensures old(traces) <= traces
      ensures var found := traces[|old(traces)|..];
        Distinct(found) && forall p :: p in found <==> Completes(graph, p, trace, target)
      decreases |graph| - |trace|
    {
      var callee := graph[trace[|trace| - 1]];
      hide SimplePath, Completes, AreAll, Distinct;
      SimplePathsAreShort(graph, trace);
      ghost var before, start := traces, trace;
      if callee.defId == target {
        traces := traces + [trace];
        JustHere(graph, trace, target);
        assert traces[|before|..] == [start];
        return;
      }
      var calls := callee.calls;
      ghost var found: seq<Trace> := [];
      NoCallYet(graph, start, target);
      assert callee.calls - calls == {};
      while calls != {}
        invariant calls <= callee.calls && trace == start && traces == before + found
        invariant AreAll(found, graph, start, target, callee.calls - calls)
      {
        var c :| c in calls;
        ghost var done := callee.calls - calls;
        calls := calls - {c};
        assert callee.calls - calls == done + {c};
        if c in trace {
          NoCallBack(found, graph, start, target, done, c);
        } else {
          PathPushed(graph, trace, c);
          SimplePathsAreShort(graph, trace + [c]);
          trace := trace + [c];
          Build();
          trace := trace[..|trace| - 1];
          ghost var more := traces[|before + found|..];
          OneMoreCall(found, more, graph, start, target, done, c);
          assert traces == before + (found + more);
          found := found + more;
        }
      }
      assert callee.calls - calls == callee.calls;
      AllCalls(found, graph, start, target);
      assert traces[|before|..] == found;
    }
  }

  /** Starts with one of the entry point's calls, and ends where it first gets to the target. */
  predicate IsTraceOf(graph: Graph, p: Trace, calls: set<nat>, target: nat) {
    p != [] && p[0] in calls && Completes(graph, p, [p[0]], target)
  }

  lemma OneMoreEntry(found: seq<Trace>, more: seq<Trace>, graph: Graph, target: nat, calls: set<nat>, c: nat)
    requires c !in calls && Distinct(found) && forall p :: p in found <==> IsTraceOf(graph, p, calls, target)
    requires Distinct(more) && forall p :: p in more <==> Completes(graph, p, [c], target)
    ensures Distinct(found + more) && forall p :: p in found + more <==> IsTraceOf(graph, p, calls + {c}, target)
  {
    forall p
      ensures Completes(graph, p, [c], target) <==> IsTraceOf(graph, p, {c}, target)
    {
      if [c] <= p {
        assert p[0] == c;
      }
    }
    hide Completes;
    forall i, j | 0 <= i < |found| && 0 <= j < |more|
      ensures found[i] != more[j]
    {
      assert found[i] in found && more[j] in more;
    }
  }

  /** Every trace from the entry point to the target, exactly once. */
  method EntryPointTraces(graph: Graph, calls: set<nat>, target: nat) returns (traces: seq<Trace>)
    requires Closed(graph) && forall c <- calls :: c < |graph|
    ensures Distinct(traces) && forall p :: p in traces <==> IsTraceOf(graph, p, calls, target)
  {
    hide Completes, IsTraceOf;
    var search := new Search(graph, target);
    var rest := calls;
    NoEntryYet(graph, target);
    assert calls - rest == {};
    while rest != {}
      invariant rest <= calls && search.graph == graph && search.target == target
      invariant Distinct(search.traces) && forall p :: p in search.traces <==> IsTraceOf(graph, p, calls - rest, target)
    {
      var c :| c in rest;
      ghost var done, before := calls - rest, search.traces;
      rest := rest - {c};
      assert calls - rest == done + {c};
      search.trace := [c];
      search.Build();
      OneMoreEntry(before, search.traces[|before|..], graph, target, done, c);
      assert search.traces == before + search.traces[|before|..];
    }
    assert calls - rest == calls;
    traces := search.traces;
  }

  lemma NoEntryYet(graph: Graph, target: nat)
    ensures forall p :: !IsTraceOf(graph, p, {}, target)
  {}

  function Defs(graph: Graph, p: Trace): seq<nat>
    requires forall i | 0 <= i < |p| :: p[i] < |graph|
  {
    seq(|p|, i requires 0 <= i < |p| => graph[p[i]].defId)
  }

  /** The traces by definition, without repeats. */
  method ReduceTraces(graph: Graph, traces: seq<Trace>) returns (reduced: set<seq<nat>>)
    requires forall p <- traces :: forall i | 0 <= i < |p| :: p[i] < |graph|
    ensures forall defs :: defs in reduced <==> exists p <- traces :: defs == Defs(graph, p)
  {
    reduced := {};
    for i := 0 to |traces|
      invariant forall defs :: defs in reduced <==> exists j | 0 <= j < i :: defs == Defs(graph, traces[j])
    {
      reduced := reduced + {Defs(graph, traces[i])};
    }
  }

  /** A definition that the trace names last is the target, and no other one in it is. */
  lemma TargetIsLast(graph: Graph, p: Trace, calls: set<nat>, target: nat)
    requires IsTraceOf(graph, p, calls, target)
    ensures var defs := Defs(graph, p); defs[|defs| - 1] == target && forall i | 0 <= i < |defs| - 1 :: defs[i] != target
  {
    assert [p[0]] <= p;
  }
}
