/**
 * A listener (src/core/entity/listener.js): a named reaction to one event with a
 * cache of the forest of arounds that wrap it.
 */
module Listeners {
  import opened Optional
  import opened Arounds
  import opened Resolver

  class Listener {
    const name: Name
    const body: BodyId
    /** The event the listener was registered on (a proof device: no listener belongs to two events). */
    ghost const event: string
    /** `null` until the forest is first resolved, and again after `DiscardCache`. */
    var aroundCache: Option<Forest>

    /** `new Listener(conf, fn)`; `token` is the fresh anonymous name used when `fn` has none. */
    constructor (fnName: string, body: BodyId, token: nat, ghost event: string)
      ensures name == NameOf(fnName, token) && this.body == body && this.event == event
      ensures aroundCache == None
    {
      name := NameOf(fnName, token);
      this.body := body;
      this.event := event;
      aroundCache := None;
    }

    method DiscardCache()
      modifies this
      ensures aroundCache == None
    {
      aroundCache := None;
    }

    /**
     * `getCurrentArounds(depend, arounds)`. The source splices matched arounds out
     * of the array it was given and recurses on that same array; `remaining` is that
     * array as the call leaves it.
     */
    method GetCurrentArounds(depend: Name, arounds: seq<Around>)
      returns (matcheds: Forest, remaining: seq<Around>)
      ensures (matcheds, remaining) == Resolve(depend, arounds)
      decreases |arounds|
    {
      matcheds := [];
      remaining := arounds;
      var i: int := 0;
      assert [] + Collect(depend, remaining, i).0 == Collect(depend, remaining, i).0;
      while i < |remaining|
        invariant 0 <= i
        invariant |remaining| <= |arounds|
        invariant Resolve(depend, arounds).0 == matcheds + Collect(depend, remaining, i).0
        invariant Resolve(depend, arounds).1 == Collect(depend, remaining, i).1
        decreases |remaining| - i
      {
        var around := remaining[i];
        if Matches(around, depend) {
          ghost var before, old_matcheds := remaining, matcheds;
          remaining := remaining[..i] + remaining[i + 1..];
          i := i - 1;
          var children;
          children, remaining := GetCurrentArounds(around.name, remaining);
          matcheds := matcheds + [Matched(around, children)];
          assert Collect(depend, before, i + 1)
                 == ([Matched(around, children)] + Collect(depend, remaining, i + 1).0,
                     Collect(depend, remaining, i + 1).1);
          assert matcheds + Collect(depend, remaining, i + 1).0
                 == old_matcheds + ([Matched(around, children)] + Collect(depend, remaining, i + 1).0);
        }
        i := i + 1;
      }
      assert matcheds + [] == matcheds;
    }

    /**
     * The cache lookup of `createCallFn`: resolve the forest against a private copy of
     * the pool only when the cache is empty, store it, and reuse it afterwards.
     */
    method CurrentArounds(arounds: seq<Around>) returns (forest: Forest)
      modifies this
      ensures aroundCache == Some(forest)
      ensures old(aroundCache).Some? ==> forest == old(aroundCache).value
      ensures old(aroundCache).None? ==> forest == Resolve(name, arounds).0
    {
      var current := aroundCache;
      if current.None? {
        var copy := arounds;
        var left;
        forest, left := GetCurrentArounds(name, copy);
        aroundCache := Some(forest);
      } else {
        forest := current.value;
      }
    }
  }
}
