/**
 * The registry (src/core/index.js): events created on first use, global arounds that
 * wrap every event, and a one-shot flag asking the next dispatch to re-resolve forests.
 */
module Registry {
  import opened Optional
  import opened Strings
  import opened Arounds
  import opened Resolver
  import L = Listeners
  import E = Events

  /** What the first argument of `around(packName, conf, fn)` selects. */
  datatype Scope = Global | Local(event: string, depend: Option<string>)

  /**
   * `'*'` is a global around; otherwise `const [name, depend] = packName.split(':')`:
   * a missing second segment leaves `depend` undefined, and later segments are ignored.
   */
  function ParseSpec(packName: string): (scope: Scope)
    ensures scope.Global? <==> packName == Wildcard
    ensures scope.Local? ==> ':' !in scope.event
    ensures scope.Local? && scope.depend.Some? ==> ':' !in scope.depend.value
    ensures scope.Local? ==> (scope.depend.None? <==> ':' !in packName)
  {
    if packName == Wildcard then Global
    else
      var parts := Split(packName, ':');
      SplitPartsClean(packName, ':');
      SplitSingle(packName, ':');
      Local(parts[0], if |parts| > 1 then Some(parts[1]) else None)
  }

  /** `around('e', fn)` is local to `e`, with no `depend` (so the default `'*'` applies). */
  lemma ParseEventOnly(e: string)
    requires e != Wildcard && ':' !in e
    ensures ParseSpec(e) == Local(e, None)
  {
    SplitSingle(e, ':');
  }

  /** `around('e:t', fn)` and `around('e:t:more', fn)` are local to `e` and wrap `t`. */
  lemma ParseEventTarget(e: string, t: string, tail: string)
    requires ':' !in e && ':' !in t
    requires tail == "" || tail[0] == ':'
    ensures ParseSpec(e + [':'] + t + tail) == Local(e, Some(t))
  {
    var spec := e + [':'] + t + tail;
    assert spec[|e|] == ':';
    assert spec == e + [':'] + (t + tail);
    SplitFirst(e, ':', t + tail);
    if tail == "" {
      assert t + tail == t;
      SplitSingle(t, ':');
    } else {
      assert t + tail == t + [':'] + tail[1..];
      SplitFirst(t, ':', tail[1..]);
    }
  }

  /** The outcome of `emit`: rejected because no event has that name, or the listeners started. */
  datatype Dispatch = UnknownEvent | Dispatched(calls: seq<E.Call>)

  class Apr {
    var events: map<string, E.Event>
    var globalArounds: seq<Around>
    var hasAppendAround: bool
    /** The next fresh anonymous token (`Symbol('Anonymous')` is unique). */
    var nextAnon: nat
    /** The registry, its events and their listeners. */
    ghost var Repr: set<object>

    ghost function ListenersOf(name: string): seq<L.Listener>
      requires Valid()
      reads this, Repr
    {
      if name in events then events[name].listeners else []
    }

    ghost function AroundsOf(name: string): seq<Around>
      requires Valid()
      reads this, Repr
    {
      if name in events then events[name].arounds else []
    }

    /**
     * Each event is stored under its own name and holds its listeners once; no listener
     * belongs to two events (each remembers the one it was registered on).
     */
    ghost predicate Valid()
      reads this, Repr
    {
      && this in Repr
      && (forall k :: k in events ==> events[k] in Repr && events[k].name == k && events[k].Valid())
      && (forall k, i :: k in events && 0 <= i < |events[k].listeners| ==> events[k].listeners[i] in Repr)
    }

    /** Every cached forest is the one resolution would give now. */
    ghost predicate CachesFresh()
      requires Valid()
      reads this, Repr
    {
      forall k :: k in events ==> events[k].CachesFresh(globalArounds)
    }

    constructor ()
      ensures events == map[] && globalArounds == [] && !hasAppendAround
      ensures Valid() && CachesFresh() && fresh(Repr)
    {
      events := map[];
      globalArounds := [];
      hasAppendAround := false;
      nextAnon := 0;
      Repr := {this};
    }

    /** `getEvent(name, ensure)`: the event, created empty if absent and `ensure` is set. */
    method GetEvent(name: string, ensure: bool) returns (e: E.Event?)
      requires Valid()
      modifies this
      ensures Valid()
      ensures fresh(Repr - old(Repr))
      ensures globalArounds == old(globalArounds) && hasAppendAround == old(hasAppendAround)
      ensures nextAnon == old(nextAnon)
      ensures name in old(events) ==> e == old(events)[name] && events == old(events)
      ensures name !in old(events) && !ensure ==> e == null && events == old(events)
      ensures name !in old(events) && ensure ==>
        && e != null && fresh(e)
        && e.name == name && e.listeners == [] && e.arounds == []
        && events == old(events)[name := e]
      ensures forall k :: k in old(events) ==> k in events && events[k] == old(events[k])
      ensures old(CachesFresh()) ==> CachesFresh()
    {
      if name !in events && ensure {
        var created := new E.Event(name);
        events := events[name := created];
        Repr := Repr + {created};
      }
      e := if name in events then events[name] else null;
    }

    /** `on(name, fn)`: one new listener at the end of event `name`, created if absent. */
    method On(name: string, fnName: string, body: BodyId) returns (ghost added: L.Listener)
      requires Valid()
      modifies this, events.Values
      ensures Valid()
      ensures fresh(Repr - old(Repr))
      ensures globalArounds == old(globalArounds) && hasAppendAround == old(hasAppendAround)
      ensures nextAnon == old(nextAnon) + 1
      ensures name in events
      ensures name in old(events) ==> events == old(events)
      ensures name !in old(events) ==> events == old(events)[name := events[name]] && fresh(events[name])
      ensures forall k :: k in old(events) && k != name ==> unchanged(events[k])
      ensures events[name].listeners == old(ListenersOf(name)) + [added]
      ensures events[name].arounds == old(AroundsOf(name))
      ensures fresh(added) && added.name == NameOf(fnName, old(nextAnon)) && added.body == body
      ensures added.aroundCache == None
      ensures old(CachesFresh()) ==> CachesFresh()
    {
      var e := GetEvent(name, true);
      added := AddListener(name, fnName, body);
    }

    /** The second half of `on`: `listener(conf, fn)` on the existing event `name`. */
    method AddListener(name: string, fnName: string, body: BodyId) returns (ghost added: L.Listener)
      requires Valid() && name in events
      modifies this, events[name]
      ensures Valid()
      ensures fresh(Repr - old(Repr))
      ensures events == old(events) && globalArounds == old(globalArounds) && hasAppendAround == old(hasAppendAround)
      ensures nextAnon == old(nextAnon) + 1
      ensures events[name].listeners == old(events[name].listeners) + [added]
      ensures events[name].arounds == old(events[name].arounds)
      ensures fresh(added) && added.name == NameOf(fnName, old(nextAnon)) && added.body == body
      ensures added.aroundCache == None
      ensures old(CachesFresh()) ==> CachesFresh()
    {
      added := events[name].Listener(fnName, body, nextAnon);
      nextAnon := nextAnon + 1;
      Repr := Repr + {added};
    }


    /** `around(packName, conf, fn)` as written: a global around only raises the one-shot flag. */
    method Around(packName: string, fnName: string, body: BodyId)
      requires Valid()
      modifies Repr
      ensures Valid() && fresh(Repr - old(Repr))
      ensures nextAnon == old(nextAnon) + 1
      ensures ParseSpec(packName).Global? ==>
        && globalArounds == old(globalArounds) + [NewAround(fnName, body, None, old(nextAnon))]
        && hasAppendAround
        && events == old(events)
        && unchanged(old(Repr) - {this})
      ensures var scope := ParseSpec(packName);
        scope.Local? ==>
          && events.Keys == old(events.Keys) + {scope.event}
          && (scope.event in old(events) ==> events == old(events))
          && globalArounds == old(globalArounds) && hasAppendAround == old(hasAppendAround)
          && events[scope.event].arounds == old(AroundsOf(scope.event)) + [NewAround(fnName, body, scope.depend, old(nextAnon))]
          && events[scope.event].listeners == old(ListenersOf(scope.event))
          && (forall i :: 0 <= i < |events[scope.event].listeners| ==> events[scope.event].listeners[i].aroundCache == None)
          && (forall k :: k in old(events) && k != scope.event ==> events[k] == old(events[k]) && unchanged(events[k]) && unchanged(events[k].listeners))
          && (old(CachesFresh()) ==> CachesFresh())
    {
      match ParseSpec(packName)
      case Global =>
        globalArounds := globalArounds + [NewAround(fnName, body, None, nextAnon)];
        hasAppendAround := true;
        nextAnon := nextAnon + 1;
      case Local(name, depend) =>
        AroundLocal(name, depend, fnName, body);
    }

    /** The local branch of `around`: `getEvent(name, true).around(conf, fn, depend)`. */
    method AroundLocal(name: string, depend: Option<string>, fnName: string, body: BodyId)
      requires Valid()
      modifies this, events.Values, ListenersOf(name)
      ensures Valid() && fresh(Repr - old(Repr))
      ensures nextAnon == old(nextAnon) + 1
      ensures events.Keys == old(events.Keys) + {name}
      ensures name in old(events) ==> events == old(events)
      ensures globalArounds == old(globalArounds) && hasAppendAround == old(hasAppendAround)
      ensures events[name].arounds == old(AroundsOf(name)) + [NewAround(fnName, body, depend, old(nextAnon))]
      ensures events[name].listeners == old(ListenersOf(name))
      ensures forall i :: 0 <= i < |events[name].listeners| ==> events[name].listeners[i].aroundCache == None
      ensures forall k :: k in old(events) && k != name ==> events[k] == old(events[k])
      ensures forall k :: k in old(events) && k != name ==> unchanged(events[k]) && unchanged(events[k].listeners)
      ensures old(CachesFresh()) ==> CachesFresh()
    {
      var e := GetEvent(name, true);
      AddLocalAround(name, fnName, body, depend);
    }

    /** The second half of a local `around`: `event.around(conf, fn, depend)` on the existing event `name`. */
    method AddLocalAround(name: string, fnName: string, body: BodyId, depend: Option<string>)
      requires Valid() && name in events
      modifies this, events[name], events[name].listeners
      ensures Valid() && Repr == old(Repr)
      ensures events == old(events) && globalArounds == old(globalArounds) && hasAppendAround == old(hasAppendAround)
      ensures nextAnon == old(nextAnon) + 1
      ensures events[name].listeners == old(events[name].listeners)
      ensures events[name].arounds == old(events[name].arounds) + [NewAround(fnName, body, depend, old(nextAnon))]
      ensures forall i :: 0 <= i < |events[name].listeners| ==> events[name].listeners[i].aroundCache == None
      ensures forall k :: k in events && k != name ==> unchanged(events[k]) && unchanged(events[k].listeners)
      ensures old(CachesFresh()) ==> CachesFresh()
    {
      ghost var touched := events[name].listeners;
      events[name].Around(fnName, body, depend, nextAnon);
      nextAnon := nextAnon + 1;
      forall k | k in events && k != name
        ensures unchanged(events[k]) && unchanged(events[k].listeners)
      {
        forall i | 0 <= i < |events[k].listeners|
          ensures events[k].listeners[i] !in touched
        {
          assert events[k].listeners[i].event == k;
        }
      }
      if old(CachesFresh()) {
        forall k | k in events && k != name
          ensures events[k].CachesFresh(globalArounds)
        {
          assert old(events[k].CachesFresh(globalArounds));
        }
      }
    }

    /**
     * `around` with the global case corrected: a new global around changes the forest
     * of every listener of every event, so every cache is emptied at once.
     */
    method AroundCorrected(packName: string, fnName: string, body: BodyId)
      requires Valid()
      modifies Repr
      ensures Valid() && fresh(Repr - old(Repr))
      ensures nextAnon == old(nextAnon) + 1
      ensures ParseSpec(packName).Global? ==>
        && globalArounds == old(globalArounds) + [NewAround(fnName, body, None, old(nextAnon))]
        && hasAppendAround
        && events == old(events)
        && (forall k :: k in events ==> events[k].listeners == old(events[k].listeners) && events[k].arounds == old(events[k].arounds))
        && (forall k, i :: k in events && 0 <= i < |events[k].listeners| ==> events[k].listeners[i].aroundCache == None)
        && CachesFresh()
      ensures var scope := ParseSpec(packName);
        scope.Local? ==>
          && events.Keys == old(events.Keys) + {scope.event}
          && (scope.event in old(events) ==> events == old(events))
          && globalArounds == old(globalArounds) && hasAppendAround == old(hasAppendAround)
          && events[scope.event].arounds == old(AroundsOf(scope.event)) + [NewAround(fnName, body, scope.depend, old(nextAnon))]
          && events[scope.event].listeners == old(ListenersOf(scope.event))
          && (forall i :: 0 <= i < |events[scope.event].listeners| ==> events[scope.event].listeners[i].aroundCache == None)
          && (forall k :: k in old(events) && k != scope.event ==> events[k] == old(events[k]) && unchanged(events[k]) && unchanged(events[k].listeners))
      ensures old(CachesFresh()) ==> CachesFresh()
    {
      match ParseSpec(packName)
      case Global =>
        globalArounds := globalArounds + [NewAround(fnName, body, None, nextAnon)];
        hasAppendAround := true;
        nextAnon := nextAnon + 1;
        DiscardAllCaches();
      case Local(name, depend) =>
        AroundLocal(name, depend, fnName, body);
    }

    /** `discardCache()` on every event: afterwards no listener holds a forest. */
    method DiscardAllCaches()
      requires Valid()
      modifies Repr - {this}
      ensures Valid() && CachesFresh()
      ensures forall k :: k in events ==> events[k].listeners == old(events[k].listeners) && events[k].arounds == old(events[k].arounds)
      ensures forall k, i :: k in events && 0 <= i < |events[k].listeners| ==> events[k].listeners[i].aroundCache == None
    {
      var pending := events.Keys;
      while pending != {}
        invariant pending <= events.Keys
        invariant forall k :: k in events ==> unchanged(events[k])
        invariant forall k, i :: k in events && k !in pending && 0 <= i < |events[k].listeners| ==>
          events[k].listeners[i].aroundCache == None
        decreases pending
      {
        var k :| k in pending;
        ghost var done := events.Keys - pending;
        events[k].DiscardCache();
        forall j, i | j in done && 0 <= i < |events[j].listeners|
          ensures events[j].listeners[i] !in events[k].listeners
        {
          assert events[j].listeners[i].event == j;
        }
        pending := pending - {k};
      }
    }

    /**
     * The synchronous effect of `emit(name, params)`: an unknown event is rejected; a known
     * one runs `execute` with the one-shot flag as `needRefreshCache`. Either way the flag
     * is cleared, for every event.
     */
    method Emit(name: string) returns (d: Dispatch)
      requires Valid()
      modifies this, ListenersOf(name)
      ensures Valid() && Repr == old(Repr)
      ensures events == old(events) && globalArounds == old(globalArounds) && nextAnon == old(nextAnon)
      ensures !hasAppendAround
      ensures d.UnknownEvent? <==> name !in events
      ensures d.Dispatched? ==> Started(name, d.calls)
      ensures d.Dispatched? ==>
        forall i :: 0 <= i < |d.calls| ==>
          d.calls[i].forest == if old(hasAppendAround) || old(events[name].listeners[i].aroundCache).None?
                               then Resolve(events[name].listeners[i].name, events[name].arounds + globalArounds).0
                               else old(events[name].listeners[i].aroundCache).value
      ensures forall k, i :: k in events && k != name && 0 <= i < |events[k].listeners| ==>
        unchanged(events[k].listeners[i])
      ensures old(CachesFresh()) ==> CachesFresh()
      ensures old(CachesFresh()) && d.Dispatched? ==>
        forall i :: 0 <= i < |d.calls| ==>
          d.calls[i].forest == Resolve(events[name].listeners[i].name, events[name].arounds + globalArounds).0
    {
      if name !in events {
        hasAppendAround := false;
        d := UnknownEvent;
      } else {
        var calls := EmitKnown(name);
        d := Dispatched(calls);
      }
    }

    /** Each listener of `name` was started once, in order, with the forest its cache now holds. */
    ghost predicate Started(name: string, calls: seq<E.Call>)
      requires Valid()
      reads this, Repr
    {
      && name in events
      && |calls| == |events[name].listeners|
      && forall i :: 0 <= i < |calls| ==>
        && calls[i].body == events[name].listeners[i].body
        && events[name].listeners[i].aroundCache == Some(calls[i].forest)
    }

    /** `emit` on an event that exists. */
    method EmitKnown(name: string) returns (calls: seq<E.Call>)
      requires Valid() && name in events
      modifies this, events[name].listeners
      ensures Valid() && Repr == old(Repr)
      ensures events == old(events) && globalArounds == old(globalArounds) && nextAnon == old(nextAnon)
      ensures !hasAppendAround
      ensures Started(name, calls)
      ensures forall i :: 0 <= i < |calls| ==>
        calls[i].forest == if old(hasAppendAround) || old(events[name].listeners[i].aroundCache).None?
                           then Resolve(events[name].listeners[i].name, events[name].arounds + globalArounds).0
                           else old(events[name].listeners[i].aroundCache).value
      ensures forall k, i :: k in events && k != name && 0 <= i < |events[k].listeners| ==>
        unchanged(events[k].listeners[i])
      ensures old(CachesFresh()) ==> CachesFresh()
    {
      ghost var touched := events[name].listeners;
      calls := events[name].Execute(globalArounds, hasAppendAround);
      hasAppendAround := false;
      forall k, i | k in events && k != name && 0 <= i < |events[k].listeners|
        ensures events[k].listeners[i] !in touched
      {
        assert events[k].listeners[i].event == k;
      }
      if old(CachesFresh()) {
        forall k | k in events
          ensures events[k].CachesFresh(globalArounds)
        {
          assert old(events[k].CachesFresh(globalArounds));
        }
      }
    }

    /** `reset()`: forget every event and global around; anonymous tokens stay unique. */
    method Reset()
      modifies this
      ensures Valid() && CachesFresh() && Repr == {this}
      ensures events == map[] && globalArounds == [] && !hasAppendAround && nextAnon == old(nextAnon)
    {
      events := map[];
      globalArounds := [];
      hasAppendAround := false;
      Repr := {this};
    }
  }

  /** The global around the scenarios below add: named `guard`, wrapping everything. */
  const Guard: Around := Around(Named("guard"), Wildcard, 3)

  /** Alone in the pool, `guard` wraps any target, with nothing inside it. */
  lemma GuardAlone(target: Name)
    ensures Resolve(target, [] + [Guard]).0 == [Matched(Guard, [])]
  {
    var pool := [] + [Guard];
    assert pool == [Guard] && Matches(Guard, target);
    assert pool[..0] + pool[1..] == [];
    assert Collect(Guard.name, [], 0) == ([], []);
    assert Collect(target, [], 0) == ([], []);
    assert [Matched(Guard, [])] + [] == [Matched(Guard, [])];
  }

  /**
   * A registry whose only event is `done`, with the single listener `logDone` holding
   * `cache`, no local around, the global arounds `globals` and the flag down.
   */
  ghost predicate DoneOnly(apr: Apr, logDone: L.Listener, globals: seq<Around>, cache: Option<Forest>)
    reads apr, apr.Repr, logDone
  {
    && apr.Valid()
    && apr.events.Keys == {"done"}
    && apr.events["done"].listeners == [logDone]
    && apr.events["done"].arounds == []
    && apr.globalArounds == globals
    && !apr.hasAppendAround
    && logDone.name == Named("logDone")
    && logDone.aroundCache == cache
  }

  /** `on('done', logDone)` then `emit('done')` on a new registry: the empty forest is cached. */
  method DoneEmitted() returns (apr: Apr, ghost logDone: L.Listener)
    ensures DoneOnly(apr, logDone, [], Some([])) && fresh(apr.Repr)
  {
    apr := new Apr();
    logDone := apr.On("done", "logDone", 1);
    assert apr.events["done"].listeners == [logDone];
    var first := apr.Emit("done");
    assert first.Dispatched? && |first.calls| == 1;
    assert first.calls[0].forest == Resolve(logDone.name, [] + []).0 == [];
  }

  /** Then `around('*', guard)` as written and `emit('none')`: the empty forest is still cached. */
  method GuardAddedAsWritten() returns (apr: Apr, ghost logDone: L.Listener)
    ensures DoneOnly(apr, logDone, [Guard], Some([])) && fresh(apr.Repr)
  {
    apr, logDone := DoneEmitted();
    apr.Around("*", "guard", 3);
    var second := apr.Emit("none");
    assert apr.events["done"].listeners[0] == logDone;
  }

  /** Then the corrected `around('*', guard)` and `emit('none')`: nothing is cached. */
  method GuardAddedCorrected() returns (apr: Apr, ghost logDone: L.Listener)
    ensures DoneOnly(apr, logDone, [Guard], None) && fresh(apr.Repr)
  {
    apr, logDone := DoneEmitted();
    apr.AroundCorrected("*", "guard", 3);
    assert apr.events["done"].listeners[0] == logDone && logDone.aroundCache == None;
    var second := apr.Emit("none");
    assert apr.events["done"].listeners[0] == logDone;
  }

  /**
   * The registry as written: `on('done', logDone)`, `emit('done')`, `around('*', guard)`,
   * `emit('none')` for an event nobody registered, then `emit('done')`. The rejected
   * dispatch still clears the one-shot flag, so the last dispatch reuses the forest
   * cached before `guard` existed instead of the one resolution now gives.
   */
  method StaleGlobalAround() returns (wrapped: Forest, expected: Forest)
    ensures wrapped == []
    ensures expected == [Matched(Guard, [])]
  {
    var apr;
    ghost var logDone;
    apr, logDone := GuardAddedAsWritten();
    var third := apr.Emit("done");
    assert third.Dispatched? && |third.calls| == 1;
    wrapped := third.calls[0].forest;
    expected := Resolve(Named("logDone"), apr.events["done"].arounds + apr.globalArounds).0;
    GuardAlone(Named("logDone"));
  }

  /** The same steps with the corrected `around`: the last dispatch is wrapped by `guard`. */
  method FreshGlobalAround() returns (wrapped: Forest)
    ensures wrapped == [Matched(Guard, [])]
  {
    var apr;
    ghost var logDone;
    apr, logDone := GuardAddedCorrected();
    var third := apr.Emit("done");
    assert third.Dispatched? && |third.calls| == 1;
    wrapped := third.calls[0].forest;
    GuardAlone(Named("logDone"));
  }

  /** `on('save', fn)` then `around('*', fn)` on a new registry: one event, one global around. */
  method OneEventOneGlobal() returns (eventCount: nat, globalCount: nat)
    ensures eventCount == 1 && globalCount == 1
  {
    var apr := new Apr();
    ghost var saved := apr.On("save", "", 1);
    apr.Around("*", "", 2);
    eventCount := |apr.events.Keys|;
    globalCount := |apr.globalArounds|;
  }

  /** Two listeners on `save`, then `emit('save')`: both are started, in registration order. */
  method BothListenersRun() returns (started: seq<BodyId>)
    ensures started == [1, 2]
  {
    var apr := new Apr();
    ghost var first := apr.On("save", "", 1);
    ghost var second := apr.On("save", "", 2);
    assert apr.events["save"].listeners == [first, second];
    var d := apr.Emit("save");
    assert d.Dispatched? && |d.calls| == 2;
    started := [d.calls[0].body, d.calls[1].body];
  }
}
