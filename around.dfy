/**
 * The around record (src/core/entity/around.js, constructor only): an interceptor
 * with a name, the name it wraps (`depend`) and an opaque body.
 */
module Arounds {
  import opened Optional

  /** Function bodies are opaque: only their identity matters to the registry. */
  type BodyId = nat

  /**
   * The identity of a listener or around: the function's own non-empty name, or a
   * fresh anonymous token (a JavaScript `Symbol`, which equals no string).
   */
  datatype Name = Named(id: string) | Anon(token: nat)

  /** The `depend` value that wraps whatever is matched. */
  const Wildcard: string := "*"

  /** `fn.name || Symbol('Anonymous')`: the empty name is falsy and gives the fresh token. */
  function NameOf(fnName: string, token: nat): (n: Name)
    ensures n.Anon? <==> fnName == ""
    ensures n.Named? ==> n.id == fnName && n.id != ""
    ensures n.Anon? ==> n.token == token
  {
    if fnName != "" then Named(fnName) else Anon(token)
  }

  datatype Around = Around(name: Name, depend: string, body: BodyId)

  /**
   * The matching rule of the resolver: an around wraps `target` when its `depend`
   * is the target's name or the wildcard. A `Symbol` target is never `===` a string.
   */
  predicate Matches(a: Around, target: Name)
  {
    a.depend == Wildcard || target == Named(a.depend)
  }

  /** `new Around(conf, fn, depend)`; a missing `depend` takes the default `'*'`. */
  function NewAround(fnName: string, body: BodyId, depend: Option<string>, token: nat): (a: Around)
    ensures a.body == body
    ensures a.name.Anon? <==> fnName == ""
    ensures a.name.Named? ==> a.name.id == fnName
    ensures depend.Some? ==> a.depend == depend.value
    ensures depend.None? ==> forall t :: Matches(a, t)
  {
    Around(NameOf(fnName, token), if depend.Some? then depend.value else Wildcard, body)
  }

  /** Only wildcard arounds can wrap an anonymous listener or around. */
  lemma AnonymousWrappedOnlyByWildcards(a: Around, token: nat)
    ensures Matches(a, Anon(token)) <==> a.depend == Wildcard
  {
  }
}
