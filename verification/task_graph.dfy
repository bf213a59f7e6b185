/**
 Compilation of the registry into a task graph: the part of the core's `run`
 that precedes handing the graph to the executor.

 One task node is created per registered name. Each node carries the
 system, the name assigned to it, and the event-bus handle injected into it
 (the system registered as "EventSystem", downcast to the event-bus class).
 Each declared edge becomes a precedence constraint when both of its
 endpoints are registered names; any other edge is dropped without error.
 The executor is given one worker per registered system.
 */
module TaskGraph {
  import opened Systems
  import opened Registry

  /** The name under which the event bus is looked up for injection. */
  const EventSystemName: string := "EventSystem"

  /** A task node: the system to run, the name assigned to it and the injected event-bus handle. */
  datatype Node = Node(name: string, system: Handle, bus: Handle)

  /** The compiled graph handed to the executor. */
  datatype Graph = Graph(workers: nat, nodes: map<string, Node>, edges: seq<Edge>)

  /** True iff both endpoints of `e` are among `names`. */
  predicate Connects(e: Edge, names: set<string>) {
    e.before in names && e.after in names
  }

  /** The edges of `deps` that connect two names of `names`, in their original order. */
  function FilterEdges(deps: seq<Edge>, names: set<string>): (r: seq<Edge>)
    ensures |r| <= |deps|
    ensures forall i :: 0 <= i < |r| ==> Connects(r[i], names) && r[i] in deps
    decreases |deps|
  {
    if deps == [] then []
    else (if Connects(deps[0], names) then [deps[0]] else []) + FilterEdges(deps[1..], names)
  }

  /** Filtering distributes over concatenation, so it keeps the relative order of the edges. */
  lemma {:induction false} FilterConcat(a: seq<Edge>, b: seq<Edge>, names: set<string>)
    ensures FilterEdges(a + b, names) == FilterEdges(a, names) + FilterEdges(b, names)
    decreases |a|
  {
    if a != [] {
      assert (a + b)[0] == a[0];
      assert (a + b)[1..] == a[1..] + b;
      FilterConcat(a[1..], b, names);
    } else {
      assert a + b == b;
    }
  }

  /** An edge is kept exactly when it was declared and both its endpoints are registered. */
  lemma {:induction false} FilterMembership(deps: seq<Edge>, names: set<string>, e: Edge)
    ensures e in FilterEdges(deps, names) <==> e in deps && Connects(e, names)
    decreases |deps|
  {
    if deps != [] {
      FilterMembership(deps[1..], names, e);
      assert deps == [deps[0]] + deps[1..];
    }
  }

  /** Multiplicity is preserved: a kept edge occurs as often as it was declared, a dropped one never. */
  lemma {:induction false} FilterCount(deps: seq<Edge>, names: set<string>, e: Edge)
    ensures multiset(FilterEdges(deps, names))[e]
         == if Connects(e, names) then multiset(deps)[e] else 0
    decreases |deps|
  {
    if deps != [] {
      FilterCount(deps[1..], names, e);
      assert deps == [deps[0]] + deps[1..];
    }
  }

  /** When every declared edge connects registered names, nothing is dropped. */
  lemma {:induction false} FilterKeepsAll(deps: seq<Edge>, names: set<string>)
    requires forall i :: 0 <= i < |deps| ==> Connects(deps[i], names)
    ensures FilterEdges(deps, names) == deps
    decreases |deps|
  {
    if deps != [] {
      FilterKeepsAll(deps[1..], names);
    }
  }

  /**
   The compiled graph: exactly one node per registered name, each node
   carrying its registered system, its own name and the injected bus, and
   the declared edges whose endpoints are both nodes.
   */
  function BuildGraph(c: Core): (g: Graph)
    ensures g.nodes.Keys == c.systems.Keys
    ensures g.workers == |g.nodes|
    ensures forall n :: n in g.nodes ==>
              g.nodes[n].name == n && g.nodes[n].system == c.systems[n]
              && g.nodes[n].bus == GetSystem(c, EventSystemName, Exactly(EventKind))
    ensures forall i :: 0 <= i < |g.edges| ==> g.edges[i].before in g.nodes && g.edges[i].after in g.nodes
    ensures g.edges == FilterEdges(c.dependencies, c.systems.Keys)
  {
    var bus := GetSystem(c, EventSystemName, Exactly(EventKind));
    var nodes := map n | n in c.systems :: Node(n, c.systems[n], bus);
    assert nodes.Keys == c.systems.Keys;
    Graph(|c.systems|, nodes, FilterEdges(c.dependencies, c.systems.Keys))
  }

  /**
   The first loop of `run`: a node is created for each registered name,
   visited in an order the model leaves unspecified. Whatever that order,
   the nodes are those of the compiled graph.
   */
  method CreateNodes(c: Core) returns (tasks: map<string, Node>)
    ensures tasks == BuildGraph(c).nodes
  {
    var bus := GetSystem(c, EventSystemName, Exactly(EventKind));
    tasks := map[];
    var remaining := c.systems.Keys;
    while remaining != {}
      invariant remaining <= c.systems.Keys
      invariant tasks.Keys == c.systems.Keys - remaining
      invariant forall n :: n in tasks ==> tasks[n] == Node(n, c.systems[n], bus)
      decreases remaining
    {
      var name :| name in remaining;
      tasks := tasks[name := Node(name, c.systems[name], bus)];
      remaining := remaining - {name};
    }
    var expected := BuildGraph(c).nodes;
    assert tasks.Keys == expected.Keys;
    assert forall n :: n in tasks ==> tasks[n] == expected[n];
  }

  /**
   The second loop of `run`: the dependency list is walked once, in order,
   and an edge is turned into a precedence constraint when both of its
   endpoints have a node.
   */
  method KeepEdges(deps: seq<Edge>, tasks: set<string>) returns (kept: seq<Edge>)
    ensures kept == FilterEdges(deps, tasks)
  {
    kept := [];
    var i := 0;
    while i < |deps|
      invariant 0 <= i <= |deps|
      invariant kept == FilterEdges(deps[..i], tasks)
    {
      var e := deps[i];
      FilterConcat(deps[..i], [e], tasks);
      assert deps[..i + 1] == deps[..i] + [e];
      if e.before in tasks && e.after in tasks {
        kept := kept + [e];
      }
      i := i + 1;
    }
    assert deps[..i] == deps;
  }

  /** Graph construction as `run` performs it, before the graph is handed to the executor. */
  method Compile(c: Core) returns (g: Graph)
    ensures g == BuildGraph(c)
  {
    var tasks := CreateNodes(c);
    var kept := KeepEdges(c.dependencies, tasks.Keys);
    g := Graph(|c.systems|, tasks, kept);
  }

  /** Dependencies never create or remove nodes: a dangling edge does not keep any system out of the graph. */
  lemma NodesIgnoreDependencies(c: Core, deps: seq<Edge>)
    ensures BuildGraph(c.(dependencies := deps)).nodes == BuildGraph(c).nodes
  {
  }

  /** Declaring one more edge adds it at the end of the compiled edges exactly when both endpoints are registered. */
  lemma BuildAfterSetDependencies(c: Core, before: string, after: string)
    ensures BuildGraph(SetDependencies(c, before, after)).edges
         == BuildGraph(c).edges
            + (if before in c.systems && after in c.systems then [Edge(before, after)] else [])
  {
    FilterConcat(c.dependencies, [Edge(before, after)], c.systems.Keys);
  }

  /** Re-registering an already registered name leaves the compiled edges unchanged. */
  lemma BuildAfterReplace(c: Core, n: string, s: Handle)
    requires n in c.systems
    ensures BuildGraph(AddSystem(c, n, s)).edges == BuildGraph(c).edges
  {
    assert AddSystem(c, n, s).systems.Keys == c.systems.Keys;
  }

  /** Registering a system never loses a compiled edge: each edge's multiplicity can only grow. */
  lemma BuildAfterAdd(c: Core, n: string, s: Handle, e: Edge)
    ensures multiset(BuildGraph(c).edges)[e] <= multiset(BuildGraph(AddSystem(c, n, s)).edges)[e]
  {
    var c' := AddSystem(c, n, s);
    FilterCount(c.dependencies, c.systems.Keys, e);
    FilterCount(c'.dependencies, c'.systems.Keys, e);
  }
}
