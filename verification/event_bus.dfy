/**
 The event bus: an append-only list of (event name, callback) registrations,
 and a dispatch that calls every callback registered under the dispatched
 name, in registration order.

 Dispatch takes its payload by value, so the callbacks work on one private
 copy: each receives that copy by reference, sees the edits of the matching
 callbacks before it, and the caller's own string is never touched. A
 callback is modelled by what it does to the payload, a `string -> string`
 transform; dispatch is then a left fold of the matching transforms over the
 copy, and its outcome is the list of invoked registration indices together
 with the final state of the copy.
 */
module EventBus {

  /** One registration: callback `callback` listens to events named `event`. */
  datatype Listener = Listener(event: string, callback: string -> string)

  /** The bus: its registrations, oldest first. */
  datatype Bus = Bus(listeners: seq<Listener>)

  /** What one dispatch did: the registration indices it called, in call order, and the final payload copy. */
  datatype Dispatched = Dispatched(invoked: seq<nat>, payload: string)

  /** A bus with no registrations. */
  function EmptyBus(): (b: Bus)
    ensures |b.listeners| == 0
  {
    Bus([])
  }

  /** Registers `callback` for events named `name`, after every earlier registration. */
  function Listen(bus: Bus, name: string, callback: string -> string): (r: Bus)
    ensures |r.listeners| == |bus.listeners| + 1
    ensures r.listeners[..|bus.listeners|] == bus.listeners
    ensures r.listeners[|bus.listeners|] == Listener(name, callback)
  {
    Bus(bus.listeners + [Listener(name, callback)])
  }

  /** True iff registration `i` of `ls` exists and listens to `e`. */
  predicate Matches(ls: seq<Listener>, e: string, i: int) {
    0 <= i < |ls| && ls[i].event == e
  }

  /** True iff `s` lists its elements in strictly increasing order. */
  predicate Increasing(s: seq<nat>) {
    forall i, j :: 0 <= i < j < |s| ==> s[i] < s[j]
  }

  /** True iff every index in `idx` names a registration of `ls`. */
  predicate InRange(ls: seq<Listener>, idx: seq<nat>) {
    forall k :: 0 <= k < |idx| ==> idx[k] < |ls|
  }

  /**
   The reference meaning of a series of callback calls on one payload copy:
   the callbacks of `ls` at `idx` are called in that order, each on the copy
   as the previous one left it.
   */
  function Thread(ls: seq<Listener>, idx: seq<nat>, msg: string): string
    requires InRange(ls, idx)
    decreases |idx|
  {
    if idx == [] then msg else Thread(ls, idx[1..], ls[idx[0]].callback(msg))
  }

  /** One more call at the end of a series acts on what the series left. */
  lemma {:induction false} ThreadSnoc(ls: seq<Listener>, idx: seq<nat>, j: nat, msg: string)
    requires InRange(ls, idx) && j < |ls|
    ensures InRange(ls, idx + [j])
    ensures Thread(ls, idx + [j], msg) == ls[j].callback(Thread(ls, idx, msg))
    decreases |idx|
  {
    if idx != [] {
      assert (idx + [j])[1..] == idx[1..] + [j];
      ThreadSnoc(ls, idx[1..], j, ls[idx[0]].callback(msg));
    }
  }

  /** Registrations beyond the indices called play no part in the result. */
  lemma {:induction false} ThreadPrefix(ls: seq<Listener>, p: nat, idx: seq<nat>, msg: string)
    requires p <= |ls| && InRange(ls[..p], idx)
    ensures InRange(ls, idx)
    ensures Thread(ls[..p], idx, msg) == Thread(ls, idx, msg)
    decreases |idx|
  {
    if idx != [] {
      ThreadPrefix(ls, p, idx[1..], ls[idx[0]].callback(msg));
    }
  }

  /**
   Dispatches event `e` with payload `msg`: the registrations for `e` are
   called in registration order, each on the payload copy as the previous one
   left it; registrations for other names are skipped.
   */
  function Dispatch(bus: Bus, e: string, msg: string): (r: Dispatched)
    ensures Increasing(r.invoked)
    ensures forall k :: 0 <= k < |r.invoked| ==> Matches(bus.listeners, e, r.invoked[k])
    ensures forall i :: Matches(bus.listeners, e, i) ==> i in r.invoked
    ensures InRange(bus.listeners, r.invoked)
    ensures r.payload == Thread(bus.listeners, r.invoked, msg)
    decreases |bus.listeners|
  {
    var ls := bus.listeners;
    if ls == [] then Dispatched([], msg)
    else
      var n := |ls| - 1;
      var prev := Dispatch(Bus(ls[..n]), e, msg);
      ThreadPrefix(ls, n, prev.invoked, msg);
      if ls[n].event == e then
        ThreadSnoc(ls, prev.invoked, n, msg);
        Dispatched(prev.invoked + [n], ls[n].callback(prev.payload))
      else
        prev
  }

  /**
   The loop of `dispatch` as written: one pass over the registrations,
   calling each one whose name equals the event's on the running copy.
   */
  method DispatchLoop(bus: Bus, e: string, msg: string) returns (invoked: seq<nat>, payload: string)
    ensures Dispatched(invoked, payload) == Dispatch(bus, e, msg)
  {
    var ls := bus.listeners;
    invoked := [];
    payload := msg;
    var i := 0;
    while i < |ls|
      invariant 0 <= i <= |ls|
      invariant Dispatched(invoked, payload) == Dispatch(Bus(ls[..i]), e, msg)
    {
      assert ls[..i + 1][..i] == ls[..i];
      var l := ls[i];
      if l.event == e {
        invoked := invoked + [i];
        payload := l.callback(payload);
      }
      i := i + 1;
    }
    assert ls[..i] == ls;
  }

  /** Two increasing lists with the same elements are the same list. */
  lemma {:induction false} IncreasingUnique(a: seq<nat>, b: seq<nat>)
    requires Increasing(a) && Increasing(b)
    requires forall x :: x in a <==> x in b
    ensures a == b
    decreases |a|
  {
    assert a != [] ==> a[0] in b;
    assert b != [] ==> b[0] in a;
    if a != [] && b != [] {
      assert a[0] in b;
      assert b[0] in a;
      assert a[0] == b[0] by {
        var i :| 0 <= i < |b| && b[i] == a[0];
        var j :| 0 <= j < |a| && a[j] == b[0];
        assert b[0] <= b[i];
        assert a[0] <= a[j];
      }
      forall x
        ensures x in a[1..] <==> x in b[1..]
      {
        if x in a[1..] {
          var i :| 1 <= i < |a| && a[i] == x;
          assert x > a[0];
          assert x in b;
        }
        if x in b[1..] {
          var i :| 1 <= i < |b| && b[i] == x;
          assert x > b[0];
          assert x in a;
        }
      }
      IncreasingUnique(a[1..], b[1..]);
    }
  }

  /**
   The invoked list is determined by the registrations alone: any increasing
   list holding exactly the registrations for `e` is the one dispatch calls.
   */
  lemma InvokedIsMatchingInOrder(bus: Bus, e: string, msg: string, idx: seq<nat>)
    requires Increasing(idx)
    requires forall k :: 0 <= k < |idx| ==> Matches(bus.listeners, e, idx[k])
    requires forall i :: Matches(bus.listeners, e, i) ==> i in idx
    ensures Dispatch(bus, e, msg).invoked == idx
  {
    var r := Dispatch(bus, e, msg);
    forall x
      ensures x in r.invoked <==> x in idx
    {
      if x in r.invoked {
        var k :| 0 <= k < |r.invoked| && r.invoked[k] == x;
        assert Matches(bus.listeners, e, x);
      }
      if x in idx {
        var k :| 0 <= k < |idx| && idx[k] == x;
        assert Matches(bus.listeners, e, x);
      }
    }
    IncreasingUnique(r.invoked, idx);
  }

  /** Dispatching an event nobody listens to calls nothing and leaves the copy as it was. */
  lemma DispatchUnheard(bus: Bus, e: string, msg: string)
    requires forall i :: 0 <= i < |bus.listeners| ==> bus.listeners[i].event != e
    ensures Dispatch(bus, e, msg) == Dispatched([], msg)
  {
  }

  /**
   A new registration for `e` is called last, on what the earlier ones left;
   one for another name changes nothing about dispatching `e`.
   */
  lemma DispatchAfterListen(bus: Bus, name: string, f: string -> string, e: string, msg: string)
    ensures var before := Dispatch(bus, e, msg);
            (Dispatch(Listen(bus, name, f), e, msg)
             == if name == e then Dispatched(before.invoked + [|bus.listeners|], f(before.payload))
                else before)
  {
    var ls := Listen(bus, name, f).listeners;
    assert ls[..|ls| - 1] == bus.listeners;
  }

  /** The payload copy that the `k`-th invoked callback receives. */
  function SeenBy(bus: Bus, e: string, msg: string, k: nat): string
    requires k <= |Dispatch(bus, e, msg).invoked|
  {
    var r := Dispatch(bus, e, msg);
    Thread(bus.listeners, r.invoked[..k], msg)
  }

  /**
   Edits are shared along the call chain: the first matching callback gets
   the dispatched payload, every later one gets exactly what the previous
   one produced, and the final payload is what the last one produced.
   */
  lemma EditsVisibleToLaterCallbacks(bus: Bus, e: string, msg: string, k: nat)
    requires 0 < k <= |Dispatch(bus, e, msg).invoked|
    ensures SeenBy(bus, e, msg, 0) == msg
    ensures var r := Dispatch(bus, e, msg);
            SeenBy(bus, e, msg, k) == bus.listeners[r.invoked[k - 1]].callback(SeenBy(bus, e, msg, k - 1))
    ensures var r := Dispatch(bus, e, msg);
            r.payload == SeenBy(bus, e, msg, |r.invoked|)
  {
    var r := Dispatch(bus, e, msg);
    assert r.invoked[..k] == r.invoked[..k - 1] + [r.invoked[k - 1]];
    ThreadSnoc(bus.listeners, r.invoked[..k - 1], r.invoked[k - 1], msg);
    assert r.invoked[..|r.invoked|] == r.invoked;
  }
}
