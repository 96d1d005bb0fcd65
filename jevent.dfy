/** jevent/jevent.js: `on`, `off`, `once` and `fire` over a map from event type to the
    list of registered handlers. Handlers are functions known by their identity; what a
    user handler does when called is not modelled beyond the call itself, which is
    recorded. The `once` wrapper is modelled in full: it calls its handler and then
    removes itself through `off`. */
module JEvent {
  import opened Wrappers

  /** A value passed as a handler: a user function (by identity), a truthy value that is
      no function, or a falsy value (`undefined` when the argument is omitted). */
  datatype Arg = Fn(id: nat) | OtherTruthy | Falsy

  /** What a handler list holds: a user function, or the `callback` closure a `once` call
      creates; each such closure is a new function, told apart by `serial`. */
  datatype Handler = User(id: nat) | OnceWrapper(serial: nat, eventType: string, inner: Arg)

  /** One call of a user function with the fired data. */
  datatype Call = Call(id: nat, data: int)

  /** The handler map and the calls made so far; `thrown` once a handler threw. */
  datatype Dispatch = Dispatch(handlers: map<string, seq<Handler>>, calls: seq<Call>, thrown: bool)

  /** `events[eventType] || []`: an unseen type has no handlers. */
  function Snapshot(m: map<string, seq<Handler>>, t: string): (r: seq<Handler>)
    ensures t !in m ==> r == []
  {
    if t in m then m[t] else []
  }

  // ---------------------------------------------------------------------------
  // indexOf

  /** The first position of `h` in `list`, if any. */
  function FirstIndex(list: seq<Handler>, h: Handler): (r: Option<nat>)
    ensures r.Some? ==> r.value < |list| && list[r.value] == h && forall k :: 0 <= k < r.value ==> list[k] != h
    ensures r.None? <==> h !in list
  {
    if |list| == 0 then None
    else if list[0] == h then Some(0)
    else match FirstIndex(list[1..], h)
      case None => None
      case Some(k) => Some(k + 1)
  }

  /** The `indexOf` fallback: a scan from the front. It returns `undefined`, not -1, when
      the element is missing; `undefined > -1` is false, so `off` decides alike either way. */
  method IndexOfFallback(list: seq<Handler>, h: Handler) returns (r: Option<nat>)
    ensures r == FirstIndex(list, h)
  {
    var i := 0;
    while i < |list|
      invariant 0 <= i <= |list|
      invariant forall k :: 0 <= k < i ==> list[k] != h
    {
      if list[i] == h {
        r := Some(i);
        return;
      }
      i := i + 1;
    }
    r := None;
  }

  // ---------------------------------------------------------------------------
  // The map operations

  /** `handlers.push(h)`, creating the list for an unseen type. */
  function Push(m: map<string, seq<Handler>>, t: string, h: Handler): (r: map<string, seq<Handler>>) {
    m[t := Snapshot(m, t) + [h]]
  }

  /** `on(eventType, handler)`: the type's list is created if missing, and a function is
      appended to it; any other value is ignored. */
  function OnSpec(m: map<string, seq<Handler>>, t: string, arg: Arg): (r: map<string, seq<Handler>>) {
    if arg.Fn? then Push(m, t, User(arg.id)) else m[t := Snapshot(m, t)]
  }

  /** `handlers.splice(indexOf(h), 1)` when `h` is registered. */
  function Detach(m: map<string, seq<Handler>>, t: string, h: Handler): (r: map<string, seq<Handler>>)
    requires t in m
  {
    match FirstIndex(m[t], h)
    case None => m
    case Some(i) => m[t := m[t][..i] + m[t][i + 1..]]
  }

  /** `off(eventType, handler)`: nothing for an unseen type; a truthy handler is detached
      when it is registered; a falsy one empties the type's list. */
  function OffSpec(m: map<string, seq<Handler>>, t: string, arg: Arg): (r: map<string, seq<Handler>>) {
    if t !in m then m
    else match arg
      case Fn(id) => Detach(m, t, User(id))
      case OtherTruthy => m
      case Falsy => m[t := []]
  }

  /** `on` keeps every other type, creates the type's list, and appends exactly a
      function handler. */
  lemma OnAppends(m: map<string, seq<Handler>>, t: string, arg: Arg)
    ensures var r := OnSpec(m, t, arg); t in r && r.Keys == m.Keys + {t} && (forall u :: u in m && u != t ==> r[u] == m[u])
    ensures arg.Fn? ==> OnSpec(m, t, arg)[t] == Snapshot(m, t) + [User(arg.id)]
    ensures !arg.Fn? ==> OnSpec(m, t, arg)[t] == Snapshot(m, t)
  {
  }

  /** `off` with a registered function removes its first occurrence and nothing else; the
      list loses exactly one copy of it. */
  lemma OffRemovesFirst(m: map<string, seq<Handler>>, t: string, id: nat)
    requires t in m && User(id) in m[t]
    ensures var r := OffSpec(m, t, Fn(id)); var i := FirstIndex(m[t], User(id)).value;
      r.Keys == m.Keys && r[t] == m[t][..i] + m[t][i + 1..] && (forall u :: u in m && u != t ==> r[u] == m[u])
    ensures multiset(OffSpec(m, t, Fn(id))[t]) == multiset(m[t]) - multiset{User(id)}
  {
    var i := FirstIndex(m[t], User(id)).value;
    assert m[t] == m[t][..i] + [m[t][i]] + m[t][i + 1..];
    calc {
      multiset(m[t]);
      multiset(m[t][..i]) + multiset{User(id)} + multiset(m[t][i + 1..]);
    }
  }

  /** `off` leaves the map as it is for an unseen type, for an unregistered function and
      for a truthy value that is no function. */
  lemma OffUnchanged(m: map<string, seq<Handler>>, t: string, arg: Arg)
    requires t !in m || arg == OtherTruthy || (arg.Fn? && User(arg.id) !in m[t])
    ensures OffSpec(m, t, arg) == m
  {
  }

  /** `off` without a handler empties the type's list and keeps every other type. */
  lemma OffResets(m: map<string, seq<Handler>>, t: string)
    requires t in m
    ensures var r := OffSpec(m, t, Falsy); r.Keys == m.Keys && r[t] == [] && forall u :: u in m && u != t ==> r[u] == m[u]
  {
  }

  /** `off` undoes `on` for a function not yet registered; for an unseen type the empty
      list `on` created stays behind. */
  lemma OffUndoesOn(m: map<string, seq<Handler>>, t: string, id: nat)
    requires User(id) !in Snapshot(m, t)
    ensures t in m ==> OffSpec(OnSpec(m, t, Fn(id)), t, Fn(id)) == m
    ensures t !in m ==> OffSpec(OnSpec(m, t, Fn(id)), t, Fn(id)) == m[t := []]
  {
    var m1 := OnSpec(m, t, Fn(id));
    assert m1 == Push(m, t, User(id));
    DetachPushed(m, t, User(id));
    assert OffSpec(m1, t, Fn(id)) == Detach(m1, t, User(id));
    if t in m {
      assert m[t := m[t]] == m;
    }
  }

  lemma FirstIndexAppend(list: seq<Handler>, h: Handler)
    requires h !in list
    ensures FirstIndex(list + [h], h) == Some(|list|)
  {
    assert (list + [h])[|list|] == h;
  }

  /** Detaching a handler that was just pushed, and registered nowhere before in that
      list, restores the list. */
  lemma DetachPushed(m: map<string, seq<Handler>>, t: string, h: Handler)
    requires h !in Snapshot(m, t)
    ensures t in Push(m, t, h) && Detach(Push(m, t, h), t, h) == m[t := Snapshot(m, t)]
  {
    var list := Snapshot(m, t);
    var hs := list + [h];
    FirstIndexAppend(list, h);
    assert hs[..|list|] + hs[|list| + 1..] == list by {
      assert hs[..|list|] == list;
      assert hs[|list| + 1..] == [];
    }
  }

  // ---------------------------------------------------------------------------
  // fire

  /** Calling one handler of the snapshot: a user function is called; a `once` wrapper
      calls its handler, which throws unless it is a function, and then detaches itself
      from the type it was registered for. */
  function InvokeSpec(d: Dispatch, h: Handler, data: int): (r: Dispatch)
    requires !d.thrown
  {
    match h
    case User(id) => d.(calls := d.calls + [Call(id, data)])
    case OnceWrapper(_, t, inner) =>
      if inner.Fn? then
        Dispatch(if t in d.handlers then Detach(d.handlers, t, h) else d.handlers, d.calls + [Call(inner.id, data)], false)
      else d.(thrown := true)
  }

  /** The first handlers of the snapshot called in order, stopping at the first throw. */
  function FireSteps(d: Dispatch, hs: seq<Handler>, data: int): (r: Dispatch)
    requires !d.thrown
  {
    if |hs| == 0 then d
    else
      var r := FireSteps(d, hs[..|hs| - 1], data);
      if r.thrown then r else InvokeSpec(r, hs[|hs| - 1], data)
  }

  /** A handler that does not throw when called. */
  predicate Callable(h: Handler) {
    h.User? || h.inner.Fn?
  }

  /** The user function a callable handler ends up calling. */
  function Callee(h: Handler): nat
    requires Callable(h)
  {
    if h.User? then h.id else h.inner.id
  }

  function CallsOf(hs: seq<Handler>, data: int): (r: seq<Call>)
    requires forall k :: 0 <= k < |hs| ==> Callable(hs[k])
    ensures |r| == |hs| && forall k :: 0 <= k < |hs| ==> r[k] == Call(Callee(hs[k]), data)
  {
    seq(|hs|, k requires 0 <= k < |hs| => Call(Callee(hs[k]), data))
  }

  /** Every handler of the snapshot is called once, in registration order, even when a
      `once` wrapper detaches itself or another copy during the dispatch; a snapshot of
      user functions only leaves the map as it was. */
  lemma {:induction false} FireCallsAll(d: Dispatch, hs: seq<Handler>, data: int)
    requires !d.thrown && forall k :: 0 <= k < |hs| ==> Callable(hs[k])
    ensures !FireSteps(d, hs, data).thrown
    ensures FireSteps(d, hs, data).calls == d.calls + CallsOf(hs, data)
    ensures (forall k :: 0 <= k < |hs| ==> hs[k].User?) ==> FireSteps(d, hs, data).handlers == d.handlers
    decreases |hs|
  {
    if |hs| > 0 {
      var init := hs[..|hs| - 1];
      FireCallsAll(d, init, data);
      assert CallsOf(hs, data) == CallsOf(init, data) + [Call(Callee(hs[|hs| - 1]), data)];
    }
  }

  /** Once a handler threw, the rest of the snapshot is not called. */
  lemma {:induction false} ThrownSticks(d: Dispatch, hs: seq<Handler>, i: nat, data: int)
    requires !d.thrown && i <= |hs| && FireSteps(d, hs[..i], data).thrown
    ensures FireSteps(d, hs, data) == FireSteps(d, hs[..i], data)
    decreases |hs| - i
  {
    if i < |hs| {
      assert hs[..i + 1][..i] == hs[..i];
      ThrownSticks(d, hs, i + 1, data);
    } else {
      assert hs[..i] == hs;
    }
  }

  /** A handler registered with `once` is called by the first `fire` and not by the
      second; the other handlers, user functions, are called both times. */
  lemma OnceFiresOnce(m: map<string, seq<Handler>>, t: string, serial: nat, id: nat, calls: seq<Call>, data: int)
    requires forall k :: 0 <= k < |Snapshot(m, t)| ==> Snapshot(m, t)[k].User?
    ensures var w := OnceWrapper(serial, t, Fn(id));
      var d1 := FireSteps(Dispatch(Push(m, t, w), calls, false), Push(m, t, w)[t], data);
      !d1.thrown && d1.calls == calls + CallsOf(Snapshot(m, t), data) + [Call(id, data)] && d1.handlers == m[t := Snapshot(m, t)]
      && FireSteps(d1, d1.handlers[t], data).calls == d1.calls + CallsOf(Snapshot(m, t), data)
  {
    var w := OnceWrapper(serial, t, Fn(id));
    var list := Snapshot(m, t);
    var m1 := Push(m, t, w);
    var hs := list + [w];
    assert m1[t] == hs;
    assert hs[..|hs| - 1] == list;
    var d0 := Dispatch(m1, calls, false);
    FireCallsAll(d0, list, data);
    var r := FireSteps(d0, list, data);
    assert r.handlers == m1;
    FirstIndexAppend(list, w);
    assert hs[..|list|] == list;
    var d1 := FireSteps(d0, hs, data);
    assert d1 == InvokeSpec(r, w, data);
    DetachPushed(m, t, w);
    FireCallsAll(d1, list, data);
  }

  // ---------------------------------------------------------------------------
  // The shared repository

  /** The one handler map every object with event support shares, and the calls its
      handlers received. */
  class EventRepo {
    var handlers: map<string, seq<Handler>>
    var calls: seq<Call>
    /** Stands for the allocation of each new `once` closure. */
    var nextSerial: nat

    /** Every `once` closure in the map was created before. */
    predicate Valid()
      reads this
    {
      forall t :: t in handlers ==> forall k :: 0 <= k < |handlers[t]| ==> (handlers[t][k].OnceWrapper? ==> handlers[t][k].serial < nextSerial)
    }

    constructor ()
      ensures Valid() && handlers == map[] && calls == [] && nextSerial == 0
    {
      handlers := map[];
      calls := [];
      nextSerial := 0;
    }

    /** `on(eventType, handler)` */
    method On(eventType: string, handler: Arg)
      requires Valid()
      modifies this
      ensures Valid() && handlers == OnSpec(old(handlers), eventType, handler)
      ensures calls == old(calls) && nextSerial == old(nextSerial)
    {
      var list := if eventType in handlers then handlers[eventType] else [];
      if handler.Fn? {
        list := list + [User(handler.id)];
      }
      handlers := handlers[eventType := list];
    }

    /** The truthy branch of `off`: `indexOf`, then `splice` when found. */
    method Remove(eventType: string, h: Handler)
      requires Valid() && eventType in handlers
      modifies this
      ensures Valid() && handlers == Detach(old(handlers), eventType, h)
      ensures calls == old(calls) && nextSerial == old(nextSerial)
    {
      var list := handlers[eventType];
      var index := IndexOfFallback(list, h);
      if index.Some? {
        handlers := handlers[eventType := list[..index.value] + list[index.value + 1..]];
        assert forall k :: 0 <= k < |handlers[eventType]| ==> handlers[eventType][k] in list;
      }
    }

    /** `off(eventType, handler)` */
    method Off(eventType: string, handler: Arg)
      requires Valid()
      modifies this
      ensures Valid() && handlers == OffSpec(old(handlers), eventType, handler)
      ensures calls == old(calls) && nextSerial == old(nextSerial)
    {
      if eventType in handlers {
        match handler
        case Fn(id) =>
          Remove(eventType, User(id));
        case OtherTruthy =>
        case Falsy =>
          handlers := handlers[eventType := []];
      }
    }

    /** `once(eventType, handler)`: a new closure that calls `handler` and then removes
        itself is registered with `on`. */
    method Once(eventType: string, handler: Arg) returns (callback: Handler)
      requires Valid()
      modifies this
      ensures Valid() && callback == OnceWrapper(old(nextSerial), eventType, handler)
      ensures callback !in Snapshot(old(handlers), eventType)
      ensures handlers == Push(old(handlers), eventType, callback)
      ensures calls == old(calls) && nextSerial == old(nextSerial) + 1
    {
      callback := OnceWrapper(nextSerial, eventType, handler);
      nextSerial := nextSerial + 1;
      handlers := Push(handlers, eventType, callback);
    }

    /** One handler called by `fire`. */
    method Invoke(h: Handler, data: int) returns (thrown: bool)
      requires Valid()
      modifies this
      ensures Valid() && Dispatch(handlers, calls, thrown) == InvokeSpec(Dispatch(old(handlers), old(calls), false), h, data)
      ensures nextSerial == old(nextSerial)
    {
      thrown := false;
      match h
      case User(id) =>
        calls := calls + [Call(id, data)];
      case OnceWrapper(_, t, inner) =>
        if inner.Fn? {
          calls := calls + [Call(inner.id, data)];
          if t in handlers {
            Remove(t, h);
          }
        } else {
          thrown := true;
        }
    }

    /** `fire(eventType, data)`: the handlers of a copy of the type's list are called in
        order; a handler that throws ends the dispatch. */
    method Fire(eventType: string, data: int) returns (thrown: bool)
      requires Valid()
      modifies this
      ensures Valid() && Dispatch(handlers, calls, thrown) == FireSteps(Dispatch(old(handlers), old(calls), false), Snapshot(old(handlers), eventType), data)
      ensures nextSerial == old(nextSerial)
    {
      ghost var d0 := Dispatch(handlers, calls, false);
      var snapshot := if eventType in handlers then handlers[eventType] else [];
      thrown := false;
      var i := 0;
      while i < |snapshot| && !thrown
        invariant 0 <= i <= |snapshot| && Valid() && nextSerial == old(nextSerial)
        invariant Dispatch(handlers, calls, thrown) == FireSteps(d0, snapshot[..i], data)
      {
        assert snapshot[..i + 1][..i] == snapshot[..i];
        thrown := Invoke(snapshot[i], data);
        i := i + 1;
      }
      if thrown {
        ThrownSticks(d0, snapshot, i, data);
      } else {
        assert snapshot[..i] == snapshot;
      }
    }
  }

  /** A repository with one `once` handler next to a user handler: the first `fire` calls
      both, the second only the user handler. */
  method OnceExample() returns (first: seq<Call>, second: seq<Call>)
    ensures first == [Call(1, 7), Call(2, 7)] && second == [Call(1, 8)]
  {
    var repo := new EventRepo();
    repo.On("load", Fn(1));
    var w := repo.Once("load", Fn(2));
    OnceExampleRounds(repo.handlers);
    var thrown := repo.Fire("load", 7);
    first := repo.calls;
    var mark := |repo.calls|;
    thrown := repo.Fire("load", 8);
    second := repo.calls[mark..];
  }

  /** The two `fire` rounds of the example above, on the handler map after its `on` and
      `once` calls. */
  lemma OnceExampleRounds(m1: map<string, seq<Handler>>)
    requires m1 == Push(OnSpec(map[], "load", Fn(1)), "load", OnceWrapper(0, "load", Fn(2)))
    ensures var d1 := FireSteps(Dispatch(m1, [], false), Snapshot(m1, "load"), 7);
      !d1.thrown && d1.calls == [Call(1, 7), Call(2, 7)]
      && var d2 := FireSteps(Dispatch(d1.handlers, d1.calls, false), Snapshot(d1.handlers, "load"), 8);
      |d2.calls| >= 2 && d2.calls[2..] == [Call(1, 8)]
  {
    var d1 := FireSteps(Dispatch(m1, [], false), Snapshot(m1, "load"), 7);
    OnceExampleFirst(m1);
    OnceExampleSecond(d1.handlers, d1.calls);
  }

  /** The first round calls the user handler, then the `once` wrapper, which detaches. */
  lemma OnceExampleFirst(m1: map<string, seq<Handler>>)
    requires m1 == Push(OnSpec(map[], "load", Fn(1)), "load", OnceWrapper(0, "load", Fn(2)))
    ensures var d1 := FireSteps(Dispatch(m1, [], false), Snapshot(m1, "load"), 7);
      !d1.thrown && d1.calls == [Call(1, 7), Call(2, 7)] && d1.handlers == map["load" := [User(1)]]
  {
    var m := OnSpec(map[], "load", Fn(1));
    assert Snapshot(map[], "load") + [User(1)] == [User(1)];
    assert m == map["load" := [User(1)]];
    var list := Snapshot(m, "load");
    assert list == [User(1)];
    OnceFiresOnce(m, "load", 0, 2, [], 7);
    assert CallsOf(list, 7) == [Call(1, 7)];
    assert Snapshot(m1, "load") == m1["load"];
    assert m[ "load" := list] == m;
  }

  /** The second round calls the user handler alone. */
  lemma OnceExampleSecond(handlers: map<string, seq<Handler>>, calls: seq<Call>)
    requires handlers == map["load" := [User(1)]] && |calls| == 2
    ensures var d2 := FireSteps(Dispatch(handlers, calls, false), Snapshot(handlers, "load"), 8);
      |d2.calls| >= 2 && d2.calls[2..] == [Call(1, 8)]
  {
    var list := Snapshot(handlers, "load");
    assert list == [User(1)];
    FireCallsAll(Dispatch(handlers, calls, false), list, 8);
    assert CallsOf(list, 8) == [Call(1, 8)];
    assert (calls + [Call(1, 8)])[2..] == [Call(1, 8)];
  }

  // ---------------------------------------------------------------------------
  // Where the map lives

  /** The four methods of `_EventPrototype`. */
  datatype MethodName = On | Off | Once | Fire

  /** The names the module function declares around the methods. */
  const ModuleNames: set<string> := {"isFunction", "forEach", "indexOf", "addEventSupport", "_EventPrototype"}

  /** The names `addEventSupport` declares, the map among them. */
  const AddEventSupportNames: set<string> := {"Cls", "gEventsRepo", "ClsPrototype", "method"}

  /** Each method's own parameters and variables. */
  function MethodNames(m: MethodName): set<string> {
    match m
    case On => {"eventType", "handler", "self", "events", "handlers"}
    case Off => {"eventType", "handler", "self", "events", "handlers", "index"}
    case Once => {"eventType", "handler", "self", "callback"}
    case Fire => {"eventType", "data", "self", "events", "handlers"}
  }

  /** The name a method reads the map from, as written; `once` goes through `on`/`off`. */
  function RepoNameAsWritten(m: MethodName): string
    requires m != Once
  {
    if m == Fire then "gEvents" else "gEventsRepo"
  }

  /** The scopes a method body sees, innermost first: its own, the module function's, and
      the page's globals. The methods are written inside the `_EventPrototype` literal, not
      inside `addEventSupport`. */
  function ScopeChain(m: MethodName, moduleNames: set<string>, globals: set<string>): (r: seq<set<string>>)
    ensures |r| == 3
  {
    [MethodNames(m), moduleNames, globals]
  }

  predicate Resolves(name: string, chain: seq<set<string>>) {
    exists k :: 0 <= k < |chain| && name in chain[k]
  }

  datatype Access = Found | ReferenceError

  /** Reading the map's name from a method as written: an unresolvable name throws. */
  function RepoAccessAsWritten(m: MethodName, globals: set<string>): (r: Access)
    requires m != Once
  {
    if Resolves(RepoNameAsWritten(m), ScopeChain(m, ModuleNames, globals)) then Found else ReferenceError
  }

  /** As written, the map `addEventSupport` declares is out of reach of the methods: the
      methods find it only if the page happens to have a global of that name, so on any
      other page `on` and `off` throw `ReferenceError`; and `fire` reads a name nothing in
      the file declares. */
  lemma RepoOutOfScope(m: MethodName, globals: set<string>)
    requires m != Once
    ensures "gEventsRepo" in AddEventSupportNames && "gEvents" !in AddEventSupportNames + ModuleNames
    ensures RepoAccessAsWritten(m, globals) == Found <==> RepoNameAsWritten(m) in globals
  {
    var name := RepoNameAsWritten(m);
    var chain := ScopeChain(m, ModuleNames, globals);
    if name in globals {
      assert name in chain[2];
    } else {
      assert name !in chain[0] && name !in chain[1];
    }
  }

  /** On a page without such globals every method reading the map throws. */
  lemma RepoOutOfScopeExample()
    ensures RepoAccessAsWritten(On, {}) == ReferenceError && RepoAccessAsWritten(Off, {}) == ReferenceError && RepoAccessAsWritten(Fire, {}) == ReferenceError
  {
    RepoOutOfScope(On, {});
    RepoOutOfScope(Off, {});
    RepoOutOfScope(Fire, {});
  }

  /** The intended layout: one map declared by the module function and read under that
      name by every method. */
  const ModuleNamesCorrected: set<string> := ModuleNames + {"gEventsRepo"}

  function RepoAccessCorrected(m: MethodName, globals: set<string>): (r: Access) {
    if Resolves("gEventsRepo", ScopeChain(m, ModuleNamesCorrected, globals)) then Found else ReferenceError
  }

  /** With the map declared beside the methods, every method reaches it whatever the
      page's globals; this is the map `EventRepo` models. */
  lemma RepoInScopeCorrected(m: MethodName, globals: set<string>)
    ensures RepoAccessCorrected(m, globals) == Found
  {
    assert "gEventsRepo" in ScopeChain(m, ModuleNamesCorrected, globals)[1];
  }
}
