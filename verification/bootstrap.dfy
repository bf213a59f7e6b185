/**
 The program's own start-up, as a worked instance of the model: four
 systems are registered, the event-bus system is declared to precede the
 three others, and the graph is compiled. Then the two registrations the
 systems make on the bus, and the render event one of them dispatches.
 */
module Bootstrap {
  import opened Systems
  import opened Registry
  import opened TaskGraph
  import opened EventBus

  const EventSys: Handle := Sys(0, EventKind)
  const RenderSys: Handle := Sys(1, RenderKind)
  const InputSys: Handle := Sys(2, InputKind)
  const WindowSys: Handle := Sys(3, WindowKind)

  /** The core after the four `addSystem` calls of start-up. */
  function StartupRegistry(): Core {
    var c := AddSystem(Empty(), "EventSystem", EventSys);
    var c := AddSystem(c, "RenderSystem", RenderSys);
    var c := AddSystem(c, "InputSystem", InputSys);
    AddSystem(c, "WindowSystem", WindowSys)
  }

  /** The core as start-up hands it to `run`: the registry plus the three `setDependencies` calls. */
  function StartupCore(): Core {
    var c := SetDependencies(StartupRegistry(), "EventSystem", "RenderSystem");
    var c := SetDependencies(c, "EventSystem", "InputSystem");
    SetDependencies(c, "EventSystem", "WindowSystem")
  }

  /** The three start-up edges, in declaration order. */
  function StartupEdges(): seq<Edge> {
    [ Edge("EventSystem", "RenderSystem"), Edge("EventSystem", "InputSystem"),
      Edge("EventSystem", "WindowSystem") ]
  }

  /** Start-up registers the four systems under their class names and declares the three edges in order. */
  lemma StartupSystems()
    ensures StartupCore().systems
         == map["EventSystem" := EventSys, "RenderSystem" := RenderSys,
                "InputSystem" := InputSys, "WindowSystem" := WindowSys]
    ensures StartupCore().dependencies == StartupEdges()
  {
  }

  /**
   The start-up graph has the four systems as nodes and one worker per
   system, keeps all three edges in declaration order, and injects the
   event-bus system into every node.
   */
  lemma StartupGraph()
    ensures var g := BuildGraph(StartupCore());
            && g.nodes.Keys == {"EventSystem", "RenderSystem", "InputSystem", "WindowSystem"}
            && g.workers == 4
            && g.edges == StartupEdges()
            && forall n :: n in g.nodes ==> g.nodes[n].bus == EventSys
  {
    StartupSystems();
    var c := StartupCore();
    var names := {"EventSystem", "RenderSystem", "InputSystem", "WindowSystem"};
    assert c.systems.Keys == names;
    assert |names| == 4;
    assert GetSystem(c, EventSystemName, Exactly(EventKind)) == EventSys;
    FilterKeepsAll(c.dependencies, c.systems.Keys);
  }

  /**
   The bus after the render and window systems have registered their
   callbacks, assuming the render system registered first. The two systems
   run concurrently after the event-bus system, so the opposite order is
   just as possible; `RenderEventOtherOrder` covers it.
   */
  function StartupBus(onRender: string -> string, onQuit: string -> string): Bus {
    Listen(Listen(EmptyBus(), "Renderizar", onRender), "quit", onQuit)
  }

  /** With the render callback registered first, dispatching the render event calls it alone, on the dispatched text. */
  lemma RenderEventReachesRenderOnly(onRender: string -> string, onQuit: string -> string, msg: string)
    ensures Dispatch(StartupBus(onRender, onQuit), "Renderizar", msg) == Dispatched([0], onRender(msg))
  {
    var b1 := Listen(EmptyBus(), "Renderizar", onRender);
    DispatchAfterListen(EmptyBus(), "Renderizar", onRender, "Renderizar", msg);
    DispatchAfterListen(b1, "quit", onQuit, "Renderizar", msg);
  }

  /** The bus when the window system registered its quit callback before the render system's callback. */
  function StartupBusQuitFirst(onRender: string -> string, onQuit: string -> string): Bus {
    Listen(Listen(EmptyBus(), "quit", onQuit), "Renderizar", onRender)
  }

  /** In the other registration order the render callback is still called alone, now as registration 1. */
  lemma RenderEventOtherOrder(onRender: string -> string, onQuit: string -> string, msg: string)
    ensures Dispatch(StartupBusQuitFirst(onRender, onQuit), "Renderizar", msg) == Dispatched([1], onRender(msg))
  {
    var b1 := Listen(EmptyBus(), "quit", onQuit);
    DispatchAfterListen(EmptyBus(), "quit", onQuit, "Renderizar", msg);
    DispatchAfterListen(b1, "Renderizar", onRender, "Renderizar", msg);
  }
}
