/**
 * An event bucket (src/core/event.js): the ordered listeners of one event name and
 * the arounds declared locally against it.
 */
module Events {
  import opened Optional
  import opened Arounds
  import opened Resolver
  import L = Listeners

  /** One listener started by `execute`: its body, and the forest of arounds that wraps it. */
  datatype Call = Call(body: BodyId, forest: Forest)

  class Event {
    const name: string
    var listeners: seq<L.Listener>
    var arounds: seq<Around>

    /** Every listener object is held once (each is freshly created when registered), and was registered here. */
    ghost predicate Valid()
      reads this
    {
      && (forall i, j :: 0 <= i < j < |listeners| ==> listeners[i] != listeners[j])
      && (forall i :: 0 <= i < |listeners| ==> listeners[i].event == name)
    }

    /** Every cached forest is the one resolution from `arounds + globals` would give now. */
    ghost predicate CachesFresh(globals: seq<Around>)
      reads this, listeners
    {
      forall i :: 0 <= i < |listeners| && listeners[i].aroundCache.Some? ==>
        listeners[i].aroundCache.value == Resolve(listeners[i].name, arounds + globals).0
    }

    constructor (name: string)
      ensures this.name == name && listeners == [] && arounds == []
      ensures Valid()
    {
      this.name := name;
      listeners := [];
      arounds := [];
    }

    /** `listener(conf, fn)`: append one new listener at the end. */
    method Listener(fnName: string, body: BodyId, token: nat) returns (ghost added: L.Listener)
      requires Valid()
      modifies this
      ensures Valid()
      ensures arounds == old(arounds)
      ensures listeners == old(listeners) + [added]
      ensures forall g :: old(CachesFresh(g)) ==> CachesFresh(g)
      ensures fresh(added)
      ensures added.name == NameOf(fnName, token) && added.body == body && added.aroundCache == None
    {
      var l := new L.Listener(fnName, body, token, name);
      listeners := listeners + [l];
      added := l;
    }

    /** `around(conf, fn, depend)`: append one local around, then invalidate every cache. */
    method Around(fnName: string, body: BodyId, depend: Option<string>, token: nat)
      requires Valid()
      modifies this, listeners
      ensures Valid()
      ensures listeners == old(listeners)
      ensures arounds == old(arounds) + [NewAround(fnName, body, depend, token)]
      ensures forall i :: 0 <= i < |listeners| ==> listeners[i].aroundCache == None
      ensures forall g :: CachesFresh(g)
    {
      arounds := arounds + [NewAround(fnName, body, depend, token)];
      DiscardCache();
    }

    /** `discardCache()`: empty every listener's cache; nothing else changes. */
    method DiscardCache()
      modifies listeners
      ensures listeners == old(listeners) && arounds == old(arounds)
      ensures forall i :: 0 <= i < |listeners| ==> listeners[i].aroundCache == None
    {
      for i := 0 to |listeners|
        invariant forall j :: 0 <= j < i ==> listeners[j].aroundCache == None
      {
        listeners[i].DiscardCache();
      }
    }

    /**
     * The synchronous part of `execute(context, middlewares, globalArounds, needRefreshCache)`:
     * optionally empty every cache, then start every listener once, in order, each wrapped
     * by its cached forest or by the forest resolved from `arounds + globalArounds`.
     */
    method Execute(globalArounds: seq<Around>, needRefreshCache: bool) returns (calls: seq<Call>)
      requires Valid()
      modifies listeners
      ensures listeners == old(listeners) && arounds == old(arounds)
      ensures |calls| == |listeners|
      ensures forall i :: 0 <= i < |listeners| ==>
        && calls[i].body == listeners[i].body
        && listeners[i].aroundCache == Some(calls[i].forest)
        && calls[i].forest == (if needRefreshCache || old(listeners[i].aroundCache).None?
                               then Resolve(listeners[i].name, arounds + globalArounds).0
                               else old(listeners[i].aroundCache).value)
    {
      if needRefreshCache {
        DiscardCache();
      }
      var pool := arounds + globalArounds;
      calls := [];
      for i := 0 to |listeners|
        invariant |calls| == i
        invariant forall j :: 0 <= j < i ==>
          && calls[j].body == listeners[j].body
          && listeners[j].aroundCache == Some(calls[j].forest)
          && calls[j].forest == (if needRefreshCache || old(listeners[j].aroundCache).None?
                                 then Resolve(listeners[j].name, pool).0
                                 else old(listeners[j].aroundCache).value)
        invariant forall j :: i <= j < |listeners| ==>
          listeners[j].aroundCache == (if needRefreshCache then None else old(listeners[j].aroundCache))
      {
        var forest := listeners[i].CurrentArounds(pool);
        calls := calls + [Call(listeners[i].body, forest)];
      }
    }
  }
}
