# System core and event bus: a Dafny model

This project models the sequential core of a small C++ program. The program
registers named "systems" (units of work) in a core. It declares which system
must finish before which other one starts, and lets the systems call each other
through an in-process event bus. Three pieces are modelled as pure functions
over immutable datatypes:

- **Registry** (`Registry`, the `CoreSystem` bookkeeping). A map from system
  name to system handle, where the last registration wins. An append-only list
  of `(before, after)` dependency edges, duplicates included. `GetSystem` looks
  a name up and downcasts the stored handle to a requested class.
- **Graph compilation** (`TaskGraph`, the first half of `CoreSystem::run`).
  One task node per registered name. Each node carries its system, its assigned
  name and the injected event-bus handle. The declared edges are kept when both
  endpoints are registered and silently dropped otherwise. The executor gets
  one worker per system.
- **Event bus** (`EventBus`, `EventSystem::listener` / `dispatch`). An
  append-only list of `(event name, callback)` registrations. A dispatch copies
  the payload once and calls every matching callback in registration order.
  Each callback works on the shared copy.

A system handle (`Systems`) is either null or an object identity tagged with
its dynamic class. The class comes from the closed set of the program's four
system classes (event, render, input, window). So the checked downcast
`dynamic_pointer_cast<T>` becomes a tag comparison: all four classes derive
directly from the one base interface, so a cast to a concrete class succeeds
exactly when the tags are equal. A cast to the base interface always keeps the
pointer, and a null pointer stays null.

A callback is modelled by what it does to the payload, a `string -> string`
transform. `Dispatch` is a left fold of the matching transforms over the
payload copy. Its result is the list of invoked registration indices together
with the final copy. The caller's own string is an immutable value that
`Dispatch` cannot change. This mirrors the by-value parameter of
`dispatch`: callbacks see each other's edits, but the caller never does.

`Bootstrap` replays the program's `main` as an example: four systems, three
edges out of the event-bus system, all three edges kept, and the bus injected
into every node.

Two behaviours of the code are modelled as written:
- `dispatch` takes its payload by value (main.cpp:83). The callbacks share and
  edit one copy, and the caller's string is never changed.
- Names are not validated (main.cpp:29). Any string is accepted, the empty one
  included, and re-registering a name overwrites the earlier handle silently.

## Model

| member | source | states |
|---|---|---|
| Systems.Cast | main.cpp:42 | a checked downcast returns either null or the same pointer, and is non-null exactly when the object is an instance of the requested class |
| Systems.CastToBaseKeeps | main.cpp:42 | a cast to the base interface returns the handle unchanged, null or not |
| Systems.CastIdempotent | main.cpp:42 | casting a cast result to the same class again changes nothing |
| Systems.CastDisjoint | main.cpp:42 | no object survives casts to two different concrete system classes, since every class derives directly from the base |
| Registry.Empty | main.cpp:20-22 | a new core has no systems and no dependencies |
| Registry.AddSystem | main.cpp:27-30 | after registering `s` under `n`, `n` maps to `s` even if it was registered before; every other name keeps its handle; the key set gains exactly `n`; dependencies are untouched |
| Registry.SetDependencies | main.cpp:32-35 | exactly one edge `(before, after)` is appended at the end, all earlier edges stay in order, and the systems are untouched; no endpoint has to be registered |
| Registry.GetSystem | main.cpp:37-46 | the lookup is non-null exactly when the name is registered and its handle is an instance of the requested class, and a non-null result is the stored handle |
| Registry.GetUnregistered | main.cpp:40-45 | an unregistered name looks up to null for every requested class |
| Registry.GetAfterAdd | main.cpp:27-46 | last write wins: right after registering `s` under `n`, looking up `n` yields `s` cast to the requested class |
| Registry.GetAfterAddOther | main.cpp:27-46 | registering one name leaves the lookup of every other name unchanged |
| Registry.AddOverwrites | main.cpp:27-30 | registering a name twice equals registering only the second handle |
| Registry.AddCommutes | main.cpp:27-30 | registrations under distinct names commute |
| Registry.SetDependenciesKeepsDuplicates | main.cpp:32-35 | declaring an edge that is already present raises its multiplicity by one |
| Registry.AddAllLookup | main.cpp:27-46 | after any series of registrations, a name looks up to its latest registration when it has one, and to its earlier lookup otherwise |
| Registry.AddAllKeepsDependencies | main.cpp:27-30 | registrations never change the dependency list |
| Registry.SetAllAppends | main.cpp:32-35 | a series of edge declarations appends those edges in call order, duplicates included, and leaves the systems alone |
| TaskGraph.FilterEdges | main.cpp:61-67 | the kept edges are no more than the declared ones, and each kept edge was declared and connects two registered names |
| TaskGraph.FilterConcat | main.cpp:61-67 | filtering distributes over concatenation, so kept edges stay in declaration order |
| TaskGraph.FilterMembership | main.cpp:61-67 | an edge is kept if and only if it was declared and both its endpoints are registered |
| TaskGraph.FilterCount | main.cpp:61-67 | a kept edge occurs exactly as often as it was declared, and an edge with an unregistered endpoint never occurs |
| TaskGraph.FilterKeepsAll | main.cpp:61-67 | when every declared edge connects registered names, nothing is dropped |
| TaskGraph.BuildGraph | main.cpp:48-67 | the graph has exactly one node per registered name; each node carries its own name, its registered system and the event-bus lookup; there is one worker per node; every edge joins two nodes |
| TaskGraph.CreateNodes | main.cpp:55-59 | the node-creation loop yields the compiled node map, whatever order it visits the names in |
| TaskGraph.KeepEdges | main.cpp:61-67 | the single in-order pass over the dependency list keeps exactly the filtered edges |
| TaskGraph.Compile | main.cpp:50-67 | the two loops of `run` together build the compiled graph |
| TaskGraph.NodesIgnoreDependencies | main.cpp:55-67 | the node set does not depend on the declared edges, so a dangling edge keeps no system out of the graph |
| TaskGraph.BuildAfterSetDependencies | main.cpp:61-67 | one more declared edge appends itself to the compiled edges exactly when both its endpoints are registered |
| TaskGraph.BuildAfterReplace | main.cpp:55-67 | re-registering an already registered name leaves the compiled edges unchanged |
| TaskGraph.BuildAfterAdd | main.cpp:55-67 | registering a system never removes a compiled edge; each edge's multiplicity can only grow |
| EventBus.EmptyBus | main.cpp:75 | a new bus has no registrations |
| EventBus.Listen | main.cpp:78-81 | exactly one registration `(name, callback)` is appended at the end, and the existing ones are unchanged |
| EventBus.Dispatch | main.cpp:83-92 | dispatch calls only matching registrations, calls every one of them, in increasing registration order; the final payload is those callbacks applied in that order to one copy of the dispatched payload |
| EventBus.DispatchLoop | main.cpp:85-91 | the single pass over the registrations, calling each matching callback on the running copy, computes exactly `Dispatch` |
| EventBus.InvokedIsMatchingInOrder | main.cpp:85-91 | the invoked list is the unique increasing list of exactly the matching registrations |
| EventBus.DispatchUnheard | main.cpp:83-92 | dispatching a name with no registration calls nothing and returns the payload unchanged |
| EventBus.DispatchAfterListen | main.cpp:78-92 | a new registration for the dispatched name is called last, on what the earlier callbacks left; a registration for another name changes nothing |
| EventBus.EditsVisibleToLaterCallbacks | main.cpp:83-92 | the first matching callback receives the dispatched payload, each later one receives exactly what the previous one produced, and the final payload is what the last one produced |
| Bootstrap.StartupSystems | main.cpp:184-193 | start-up registers the four systems under their class names and declares the three edges in order |
| Bootstrap.StartupGraph | main.cpp:184-195 | the start-up graph has the four systems as nodes and four workers, keeps all three edges in order, and injects the event-bus system into every node |
| Bootstrap.RenderEventReachesRenderOnly | main.cpp:108-156 | with the render callback registered before the quit callback, dispatching the render event calls only the render callback (registration 0), on the dispatched text |
| Bootstrap.RenderEventOtherOrder | main.cpp:108-156 | with the quit callback registered first, the same dispatch calls only the render callback, now registration 1, with the same payload |

## Left out

- Task execution: the executor, `precede` semantics and the final wait (main.cpp:50-51, 65, 69). They belong to an external concurrency library whose code is not part of this model. The model stops at the compiled graph. It does not model ordering of execution, parallelism, or the deadlock a cyclic edge set causes.
- TaskGraph.BuildGraph: the event-bus handle is looked up when the graph is built, not when each task starts (main.cpp:58). Nothing in the program changes the registry during `run`, so the two agree.
- TaskGraph.BuildGraph: a null handle may be registered, and it still gets an ordinary node with its name and bus filled in. In the code, that node's task writes through the null pointer when it runs (main.cpp:58), which is undefined behaviour. The model does not capture that failure.
- TaskGraph.BuildGraph: writing the assigned name into the shared system object is modelled as a per-node field. When one handle is registered under two names, the concurrent tasks race on that write, and the model does not capture the race.
- The behaviour of an executor created with zero workers (an empty registry) is not modelled; that is the external library's concern.
- The systems' `run` bodies: random sleeps, clocks, random number generators and console output (main.cpp:94-178). They are I/O, randomness and timing with no stateable logic.
- The process-wide `exit(0)` in the window system's quit callback (main.cpp:131-135). It halts the process and is not a payload transform.
- Unsynchronised `listener` / `dispatch` from concurrent worker threads. That is a data race, so the bus is modelled sequentially.
- EventBus.Dispatch: a callback that registers a new listener on the same bus during a dispatch is not modelled. In the code this appends to the vector being iterated, which is undefined behaviour. Callbacks are pure payload transforms here.
- EventBus.Dispatch: exceptions thrown by callbacks are not modelled. This includes an empty callback, whose call at main.cpp:89 throws. In the code, such an exception ends the loop: later matching callbacks are not called and the exception leaves `dispatch`. Callbacks are total functions here, so every matching registration is called.
- Callback side effects other than edits to the payload (printing, halting) are not modelled.
- The iteration order of the registry's hash map (main.cpp:55) is unspecified. The registry is a `map`, and `CreateNodes` picks names in an arbitrary order.
