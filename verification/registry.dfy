/**
 The core's bookkeeping: a table from system name to system handle, and an
 append-only list of precedence edges between names.

 Names are not validated (the empty name is accepted), registering a name a
 second time silently replaces the earlier handle, and an edge may mention
 names that are not (yet) registered: existence is only looked at when the
 task graph is built.
 */
module Registry {
  import opened Systems

  datatype Option<T> = None | Some(value: T)

  /** A precedence constraint: the system named `before` must finish before `after` starts. */
  datatype Edge = Edge(before: string, after: string)

  /** One `addSystem` call's arguments. */
  datatype Registration = Registration(name: string, system: Handle)

  /** The core's state: registered systems and declared dependencies, in declaration order. */
  datatype Core = Core(systems: map<string, Handle>, dependencies: seq<Edge>)

  /** A freshly constructed core: nothing registered, no dependencies. */
  function Empty(): (c: Core)
    ensures |c.systems| == 0 && |c.dependencies| == 0
  {
    Core(map[], [])
  }

  /** Registers `system` under `name`, replacing any handle already stored there. */
  function AddSystem(c: Core, name: string, system: Handle): (r: Core)
    ensures name in r.systems && r.systems[name] == system
    ensures r.systems.Keys == c.systems.Keys + {name}
    ensures forall n :: n in c.systems && n != name ==> r.systems[n] == c.systems[n]
    ensures r.dependencies == c.dependencies
  {
    c.(systems := c.systems[name := system])
  }

  /** Appends the edge `before -> after`; neither name has to be registered. */
  function SetDependencies(c: Core, before: string, after: string): (r: Core)
    ensures |r.dependencies| == |c.dependencies| + 1
    ensures r.dependencies[..|c.dependencies|] == c.dependencies
    ensures r.dependencies[|c.dependencies|] == Edge(before, after)
    ensures r.systems == c.systems
  {
    c.(dependencies := c.dependencies + [Edge(before, after)])
  }

  /**
   Looks up `name` and downcasts the stored handle to the requested type:
   null when the name is absent, when the stored handle is null, or when the
   stored object is not of that type; otherwise the stored handle itself.
   */
  function GetSystem(c: Core, name: string, t: Requested): (r: Handle)
    ensures r != Null <==> name in c.systems && IsA(c.systems[name], t)
    ensures r != Null ==> r == c.systems[name]
  {
    if name in c.systems then Cast(c.systems[name], t) else Null
  }

  /** A name that was never registered always looks up to null, whatever type is asked for. */
  lemma GetUnregistered(c: Core, name: string, t: Requested)
    requires name !in c.systems
    ensures GetSystem(c, name, t) == Null
  {
  }

  /** Last write wins: right after `addSystem(n, s)`, looking up `n` sees `s`, whatever was there before. */
  lemma GetAfterAdd(c: Core, n: string, s: Handle, t: Requested)
    ensures GetSystem(AddSystem(c, n, s), n, t) == Cast(s, t)
  {
  }

  /** Registering `n` does not change what any other name looks up to. */
  lemma GetAfterAddOther(c: Core, n: string, m: string, s: Handle, t: Requested)
    requires m != n
    ensures GetSystem(AddSystem(c, n, s), m, t) == GetSystem(c, m, t)
  {
  }

  /** Registering the same name twice is the same as registering only the second handle. */
  lemma AddOverwrites(c: Core, n: string, s1: Handle, s2: Handle)
    ensures AddSystem(AddSystem(c, n, s1), n, s2) == AddSystem(c, n, s2)
  {
  }

  /** Registrations under distinct names commute. */
  lemma AddCommutes(c: Core, n: string, s: Handle, m: string, u: Handle)
    requires n != m
    ensures AddSystem(AddSystem(c, n, s), m, u) == AddSystem(AddSystem(c, m, u), n, s)
  {
  }

  /** A repeated dependency is kept: the edge's multiplicity grows by one. */
  lemma SetDependenciesKeepsDuplicates(c: Core, before: string, after: string)
    ensures multiset(SetDependencies(c, before, after).dependencies)[Edge(before, after)]
         == multiset(c.dependencies)[Edge(before, after)] + 1
  {
    var r := SetDependencies(c, before, after);
    assert r.dependencies == c.dependencies + [Edge(before, after)];
  }

  /** The effect of a series of `addSystem` calls made in order. */
  function AddAll(c: Core, regs: seq<Registration>): Core
    decreases |regs|
  {
    if regs == [] then c
    else
      var last := regs[|regs| - 1];
      AddSystem(AddAll(c, regs[..|regs| - 1]), last.name, last.system)
  }

  /** The handle of the latest registration of `n` in `regs`, if any. */
  function LastRegistered(regs: seq<Registration>, n: string): (r: Option<Handle>)
    ensures r.None? <==> forall k :: 0 <= k < |regs| ==> regs[k].name != n
    ensures r.Some? ==> exists k :: 0 <= k < |regs| && regs[k] == Registration(n, r.value)
                                 && forall j :: k < j < |regs| ==> regs[j].name != n
    decreases |regs|
  {
    if regs == [] then None
    else if regs[|regs| - 1].name == n then Some(regs[|regs| - 1].system)
    else LastRegistered(regs[..|regs| - 1], n)
  }

  /**
   After a series of registrations, every name looks up to its latest
   registration when it has one, and to what it looked up to before otherwise.
   */
  lemma {:induction false} AddAllLookup(c: Core, regs: seq<Registration>, n: string, t: Requested)
    ensures GetSystem(AddAll(c, regs), n, t)
         == match LastRegistered(regs, n)
            case Some(h) => Cast(h, t)
            case None => GetSystem(c, n, t)
    decreases |regs|
  {
    if regs != [] {
      var front := regs[..|regs| - 1];
      var last := regs[|regs| - 1];
      AddAllLookup(c, front, n, t);
      if last.name == n {
        GetAfterAdd(AddAll(c, front), n, last.system, t);
      } else {
        GetAfterAddOther(AddAll(c, front), last.name, n, last.system, t);
      }
    }
  }

  /** A series of registrations never touches the dependency list. */
  lemma {:induction false} AddAllKeepsDependencies(c: Core, regs: seq<Registration>)
    ensures AddAll(c, regs).dependencies == c.dependencies
    decreases |regs|
  {
    if regs != [] {
      AddAllKeepsDependencies(c, regs[..|regs| - 1]);
    }
  }

  /** The effect of a series of `setDependencies` calls made in order. */
  function SetAll(c: Core, edges: seq<Edge>): Core
    decreases |edges|
  {
    if edges == [] then c
    else
      var last := edges[|edges| - 1];
      SetDependencies(SetAll(c, edges[..|edges| - 1]), last.before, last.after)
  }

  /** Declared edges are kept verbatim: in call order, duplicates included, after the earlier ones. */
  lemma {:induction false} SetAllAppends(c: Core, edges: seq<Edge>)
    ensures SetAll(c, edges).dependencies == c.dependencies + edges
    ensures SetAll(c, edges).systems == c.systems
    decreases |edges|
  {
    if edges != [] {
      var front := edges[..|edges| - 1];
      SetAllAppends(c, front);
      assert front + [edges[|edges| - 1]] == edges;
    }
  }
}
