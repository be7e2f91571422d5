/**
 * What `Listener.getCurrentArounds` (src/core/entity/listener.js) computes, as a pure
 * function, and the properties of the forest it builds.
 *
 * The source walks a pool of arounds with an index, splices out every around whose
 * `depend` is the current target or `'*'`, and resolves that around's own dependants
 * on the SAME shrinking pool before going on. `Collect(target, pool, i)` is the walk
 * from index `i`; it returns the forest and the pool as the walk leaves it.
 */
module Resolver {
  import opened Arounds

  /** `{around, children}`: one around and the forest of arounds that wrap it. */
  datatype Matched = Matched(around: Around, children: seq<Matched>)

  type Forest = seq<Matched>

  /** The source's loop from index `i`: (forest, pool left over). */
  function Collect(target: Name, pool: seq<Around>, i: nat): (r: (Forest, seq<Around>))
    ensures |r.1| <= |pool|
    decreases |pool|, |pool| - i
  {
    if i >= |pool| then ([], pool)
    else if Matches(pool[i], target) then
      var (children, pool1) := Collect(pool[i].name, pool[..i] + pool[i + 1..], 0);
      var (siblings, rest) := Collect(target, pool1, i);
      ([Matched(pool[i], children)] + siblings, rest)
    else
      Collect(target, pool, i + 1)
  }

  /** `getCurrentArounds(target, pool)`: the forest and the pool it leaves. */
  function Resolve(target: Name, pool: seq<Around>): (r: (Forest, seq<Around>))
  {
    Collect(target, pool, 0)
  }

  /** Every around placed in a forest, parents before their children. */
  function Flatten(f: Forest): (arounds: seq<Around>)
    decreases f
  {
    if f == [] then []
    else
      assert f[0] in f;
      [f[0].around] + Flatten(f[0].children) + Flatten(f[1..])
  }

  /** The top-level arounds of a forest, in order. */
  function Tops(f: Forest): (s: seq<Around>)
    ensures |s| == |f|
    ensures forall k :: 0 <= k < |f| ==> s[k] == f[k].around
  {
    if f == [] then [] else [f[0].around] + Tops(f[1..])
  }

  /** Every top-level around matches `target`; every child matches its parent's name. */
  ghost predicate WellMatched(target: Name, f: Forest)
    decreases f
  {
    forall k :: 0 <= k < |f| ==>
      Matches(f[k].around, target) && WellMatched(f[k].around.name, f[k].children)
  }

  /** `xs` is `ys` with some elements removed, the rest kept in order. */
  ghost predicate SubSeq<T>(xs: seq<T>, ys: seq<T>)
    decreases ys
  {
    if ys == [] then xs == []
    else (xs != [] && xs[0] == ys[0] && SubSeq(xs[1..], ys[1..])) || SubSeq(xs, ys[1..])
  }

  // ---------------------------------------------------------------------------
  // Facts about subsequences
  // ---------------------------------------------------------------------------

  lemma {:induction false} SubSeqEmpty<T>(ys: seq<T>)
    ensures SubSeq([], ys)
    decreases ys
  {
    if ys != [] { SubSeqEmpty(ys[1..]); }
  }

  lemma {:induction false} SubSeqRefl<T>(s: seq<T>)
    ensures SubSeq(s, s)
    decreases s
  {
    if s != [] { SubSeqRefl(s[1..]); }
  }

  lemma {:induction false} SubSeqLength<T>(xs: seq<T>, ys: seq<T>)
    requires SubSeq(xs, ys)
    ensures |xs| <= |ys|
    decreases ys
  {
    if ys != [] {
      if xs != [] && xs[0] == ys[0] && SubSeq(xs[1..], ys[1..]) {
        SubSeqLength(xs[1..], ys[1..]);
      } else {
        SubSeqLength(xs, ys[1..]);
      }
    }
  }

  lemma {:induction false} SubSeqTrans<T>(a: seq<T>, b: seq<T>, c: seq<T>)
    requires SubSeq(a, b) && SubSeq(b, c)
    ensures SubSeq(a, c)
    decreases c
  {
    if c == [] {
    } else if b != [] && b[0] == c[0] && SubSeq(b[1..], c[1..]) {
      if a != [] && a[0] == b[0] && SubSeq(a[1..], b[1..]) {
        SubSeqTrans(a[1..], b[1..], c[1..]);
      } else {
        SubSeqTrans(a, b[1..], c[1..]);
      }
    } else {
      SubSeqTrans(a, b, c[1..]);
    }
  }

  /** `splice(i, 1)` keeps the others in order. */
  lemma {:induction false} SubSeqSplice<T>(s: seq<T>, i: nat)
    requires i < |s|
    ensures SubSeq(s[..i] + s[i + 1..], s)
    decreases i
  {
    if i == 0 {
      assert s[..0] + s[1..] == s[1..];
      SubSeqRefl(s[1..]);
    } else {
      SubSeqSplice(s[1..], i - 1);
      var t := s[..i] + s[i + 1..];
      assert t[0] == s[0];
      assert t[1..] == s[1..][..i - 1] + s[1..][i..];
    }
  }

  /** Dropping the first `i` elements of both sides keeps the relation. */
  lemma {:induction false} SubSeqSuffix<T>(xs: seq<T>, ys: seq<T>, i: nat)
    requires SubSeq(xs, ys) && i <= |xs| <= |ys|
    ensures SubSeq(xs[i..], ys[i..])
    decreases ys
  {
    if i == 0 {
      assert xs[0..] == xs && ys[0..] == ys;
    } else if ys == [] {
    } else if xs != [] && xs[0] == ys[0] && SubSeq(xs[1..], ys[1..]) {
      SubSeqLength(xs[1..], ys[1..]);
      SubSeqSuffix(xs[1..], ys[1..], i - 1);
      assert xs[1..][i - 1..] == xs[i..];
      assert ys[1..][i - 1..] == ys[i..];
    } else {
      SubSeqLength(xs, ys[1..]);
      SubSeqSuffix(xs, ys[1..], i);
      assert ys[1..][i..] == ys[i..][1..];
    }
  }

  // ---------------------------------------------------------------------------
  // Properties of the resolution
  // ---------------------------------------------------------------------------

  lemma FlattenCons(m: Matched, f: Forest)
    ensures Flatten([m] + f) == [m.around] + Flatten(m.children) + Flatten(f)
  {
  }

  /** `r` holds exactly the arounds of `pool`: those placed in its forest plus those left over. */
  ghost predicate Conserved(r: (Forest, seq<Around>), pool: seq<Around>)
  {
    multiset(Flatten(r.0)) + multiset(r.1) == multiset(pool)
  }

  lemma ConservedStep(pool: seq<Around>, i: nat, children: Forest, pool1: seq<Around>,
                      siblings: Forest, rest: seq<Around>)
    requires i < |pool|
    requires Conserved((children, pool1), pool[..i] + pool[i + 1..])
    requires Conserved((siblings, rest), pool1)
    ensures Conserved(([Matched(pool[i], children)] + siblings, rest), pool)
  {
    var spliced := pool[..i] + pool[i + 1..];
    var a := pool[i];
    var flatC, flatS := Flatten(children), Flatten(siblings);
    FlattenCons(Matched(a, children), siblings);
    assert Flatten([Matched(a, children)] + siblings) == [a] + flatC + flatS;
    assert multiset(flatC) + multiset(pool1) == multiset(spliced);
    assert multiset(flatS) + multiset(rest) == multiset(pool1);
    SplicedMultiset(pool, i);
  }

  lemma SplicedMultiset<T>(pool: seq<T>, i: nat)
    requires i < |pool|
    ensures multiset(pool) == multiset{pool[i]} + multiset(pool[..i] + pool[i + 1..])
  {
    assert pool == pool[..i] + [pool[i]] + pool[i + 1..];
  }

  /**
   * Pool conservation: every around placed anywhere in the forest was removed from
   * the pool, and the pool lost nothing else.
   */
  lemma {:induction false} CollectConserves(target: Name, pool: seq<Around>, i: nat)
    ensures Conserved(Collect(target, pool, i), pool)
    decreases |pool|, |pool| - i
  {
    if i >= |pool| {
    } else if Matches(pool[i], target) {
      var spliced := pool[..i] + pool[i + 1..];
      var (children, pool1) := Collect(pool[i].name, spliced, 0);
      var (siblings, rest) := Collect(target, pool1, i);
      CollectConserves(pool[i].name, spliced, 0);
      CollectConserves(target, pool1, i);
      ConservedStep(pool, i, children, pool1, siblings, rest);
    } else {
      CollectConserves(target, pool, i + 1);
    }
  }

  /** Pool size before = pool size after + number of forest nodes. */
  lemma ResolveSize(target: Name, pool: seq<Around>)
    ensures |Flatten(Resolve(target, pool).0)| + |Resolve(target, pool).1| == |pool|
  {
    CollectConserves(target, pool, 0);
    assert |multiset(pool)| == |pool|;
  }

  /** Each around of the pool is placed at most as often as it occurs there: none is placed twice. */
  lemma ResolveNoReuse(target: Name, pool: seq<Around>, a: Around)
    ensures multiset(Flatten(Resolve(target, pool).0))[a] <= multiset(pool)[a]
  {
    CollectConserves(target, pool, 0);
  }

  predicate Distinct<T(==)>(s: seq<T>)
  {
    forall i, j :: 0 <= i < j < |s| ==> s[i] != s[j]
  }

  lemma {:induction false} DistinctCount<T>(s: seq<T>, x: T)
    requires Distinct(s)
    ensures multiset(s)[x] <= 1
    decreases s
  {
    if s != [] {
      assert s == [s[0]] + s[1..];
      assert Distinct(s[1..]) by {
        forall i, j | 0 <= i < j < |s[1..]| ensures s[1..][i] != s[1..][j] {
          assert s[1..][i] == s[i + 1] && s[1..][j] == s[j + 1];
        }
      }
      DistinctCount(s[1..], x);
      if x == s[0] {
        assert x !in s[1..] by {
          forall k | 0 <= k < |s[1..]| ensures s[1..][k] != x {
            assert s[1..][k] == s[k + 1];
          }
        }
      }
    }
  }

  lemma TwoOccurrences<T>(s: seq<T>, i: nat, j: nat)
    requires i < j < |s|
    ensures s[i] == s[j] ==> multiset(s)[s[i]] >= 2
  {
    if s[i] == s[j] {
      assert s == s[..j] + [s[j]] + s[j + 1..];
      assert s[i] in s[..j];
    }
  }

  lemma CountDistinct<T>(s: seq<T>)
    requires forall x :: multiset(s)[x] <= 1
    ensures Distinct(s)
  {
    forall i, j | 0 <= i < j < |s| ensures s[i] != s[j] {
      TwoOccurrences(s, i, j);
    }
  }

  /** When the pool holds each around once, so does the forest. */
  lemma ResolveDistinct(target: Name, pool: seq<Around>)
    requires Distinct(pool)
    ensures Distinct(Flatten(Resolve(target, pool).0))
  {
    var flat := Flatten(Resolve(target, pool).0);
    forall x ensures multiset(flat)[x] <= 1 {
      ResolveNoReuse(target, pool, x);
      DistinctCount(pool, x);
    }
    CountDistinct(flat);
  }

  /** Match conditions hold at every level of the forest. */
  lemma {:induction false} CollectMatches(target: Name, pool: seq<Around>, i: nat)
    ensures WellMatched(target, Collect(target, pool, i).0)
    decreases |pool|, |pool| - i
  {
    if i >= |pool| {
    } else if Matches(pool[i], target) {
      var spliced := pool[..i] + pool[i + 1..];
      var (children, pool1) := Collect(pool[i].name, spliced, 0);
      var (siblings, rest) := Collect(target, pool1, i);
      CollectMatches(pool[i].name, spliced, 0);
      CollectMatches(target, pool1, i);
      var f := [Matched(pool[i], children)] + siblings;
      forall k | 0 <= k < |f|
        ensures Matches(f[k].around, target) && WellMatched(f[k].around.name, f[k].children)
      {
        if k > 0 { assert f[k] == siblings[k - 1]; }
      }
    } else {
      CollectMatches(target, pool, i + 1);
    }
  }

  lemma ResolveMatches(target: Name, pool: seq<Around>)
    ensures WellMatched(target, Resolve(target, pool).0)
  {
    CollectMatches(target, pool, 0);
  }

  /** Arounds left in the pool keep their original relative order. */
  lemma {:induction false} CollectKeepsOrder(target: Name, pool: seq<Around>, i: nat)
    ensures SubSeq(Collect(target, pool, i).1, pool)
    decreases |pool|, |pool| - i
  {
    if i >= |pool| {
      SubSeqRefl(pool);
    } else if Matches(pool[i], target) {
      var spliced := pool[..i] + pool[i + 1..];
      var (children, pool1) := Collect(pool[i].name, spliced, 0);
      var (siblings, rest) := Collect(target, pool1, i);
      CollectKeepsOrder(pool[i].name, spliced, 0);
      CollectKeepsOrder(target, pool1, i);
      SubSeqSplice(pool, i);
      SubSeqTrans(pool1, spliced, pool);
      SubSeqTrans(rest, pool1, pool);
    } else {
      CollectKeepsOrder(target, pool, i + 1);
    }
  }

  lemma ResolveKeepsOrder(target: Name, pool: seq<Around>)
    ensures SubSeq(Resolve(target, pool).1, pool)
  {
    CollectKeepsOrder(target, pool, 0);
  }

  /**
   * Top-level arounds are met left to right: they appear in the pool in the order
   * of the forest, at or after the starting index.
   */
  lemma {:induction false} CollectTopsInOrder(target: Name, pool: seq<Around>, i: nat)
    ensures i >= |pool| ==> Collect(target, pool, i).0 == []
    ensures i <= |pool| ==> SubSeq(Tops(Collect(target, pool, i).0), pool[i..])
    decreases |pool|, |pool| - i
  {
    if i >= |pool| {
      if i == |pool| {
        assert pool[i..] == [];
        SubSeqRefl(pool[i..]);
      }
    } else if Matches(pool[i], target) {
      var spliced := pool[..i] + pool[i + 1..];
      var (children, pool1) := Collect(pool[i].name, spliced, 0);
      var (siblings, rest) := Collect(target, pool1, i);
      CollectKeepsOrder(pool[i].name, spliced, 0);
      CollectTopsInOrder(target, pool1, i);
      assert SubSeq(Tops(siblings), pool[i + 1..]) by {
        if i <= |pool1| {
          SubSeqSuffix(pool1, spliced, i);
          assert spliced[i..] == pool[i + 1..];
          SubSeqTrans(Tops(siblings), pool1[i..], pool[i + 1..]);
        } else {
          SubSeqEmpty(pool[i + 1..]);
        }
      }
      var f := [Matched(pool[i], children)] + siblings;
      assert Tops(f) == [pool[i]] + Tops(siblings) by {
        assert f[1..] == siblings;
      }
      assert pool[i..][0] == pool[i] && pool[i..][1..] == pool[i + 1..];
      assert ([pool[i]] + Tops(siblings))[1..] == Tops(siblings);
    } else {
      CollectTopsInOrder(target, pool, i + 1);
      assert pool[i..][1..] == pool[i + 1..];
    }
  }

  lemma ResolveTopsInOrder(target: Name, pool: seq<Around>)
    ensures pool == [] ==> Resolve(target, pool).0 == []
    ensures SubSeq(Tops(Resolve(target, pool).0), pool)
  {
    CollectTopsInOrder(target, pool, 0);
    assert pool[0..] == pool;
  }

  // ---------------------------------------------------------------------------
  // The candidate the walk passes over, and the walk that does not
  // ---------------------------------------------------------------------------

  /** The pool of the example below: `x` wraps `a`, `a` wraps `L`, `y` wraps `L`. */
  const ExampleX: Around := Around(Named("x"), "a", 0)
  const ExampleA: Around := Around(Named("a"), "L", 1)
  const ExampleY: Around := Around(Named("y"), "L", 2)

  /**
   * As written, matching `a` splices its child `x` out from BEFORE the current index,
   * and the index is not moved back for it, so the walk steps over `y`: although `y`
   * wraps `L`, it is left in the pool and never runs.
   */
  lemma SkipsCandidate()
    ensures Matches(ExampleY, Named("L"))
    ensures Resolve(Named("L"), [ExampleX, ExampleA, ExampleY]) == ([Matched(ExampleA, [Matched(ExampleX, [])])], [ExampleY])
  {
    var pool := [ExampleX, ExampleA, ExampleY];
    assert !Matches(ExampleX, Named("L")) && Matches(ExampleA, Named("L"));
    assert pool[..1] + pool[2..] == [ExampleX, ExampleY];
    assert [ExampleX, ExampleY][..0] + [ExampleX, ExampleY][1..] == [ExampleY];
    assert Matches(ExampleX, ExampleA.name) && !Matches(ExampleY, ExampleA.name) && !Matches(ExampleY, ExampleX.name);
    assert Collect(ExampleX.name, [ExampleY], 0) == ([], [ExampleY]);
    assert Collect(ExampleA.name, [ExampleY], 0) == ([], [ExampleY]);
    assert [Matched(ExampleX, [])] + [] == [Matched(ExampleX, [])];
    assert Collect(ExampleA.name, [ExampleX, ExampleY], 0) == ([Matched(ExampleX, [])], [ExampleY]);
    assert Collect(Named("L"), [ExampleY], 1) == ([], [ExampleY]);
    assert [Matched(ExampleA, [Matched(ExampleX, [])])] + [] == [Matched(ExampleA, [Matched(ExampleX, [])])];
    assert Collect(Named("L"), pool, 1) == ([Matched(ExampleA, [Matched(ExampleX, [])])], [ExampleY]);
  }

  /** An anonymous around local to listener `saveA`, and an anonymous global around. */
  const AnonForSaveA: Around := Around(Anon(1), "saveA", 10)
  const AnonGlobal: Around := Around(Anon(2), Wildcard, 11)

  /**
   * A wildcard also matches the name of an around already placed, so a global around
   * that follows a local one in the pool becomes its child rather than its sibling:
   * the listener sees one top-level around, and the global one runs inside it.
   */
  lemma GlobalNestsUnderLocal()
    ensures Matches(AnonGlobal, Named("saveA"))
    ensures Resolve(Named("saveA"), [AnonForSaveA, AnonGlobal]) == ([Matched(AnonForSaveA, [Matched(AnonGlobal, [])])], [])
  {
    var pool := [AnonForSaveA, AnonGlobal];
    assert Matches(AnonForSaveA, Named("saveA")) && Matches(AnonGlobal, AnonForSaveA.name);
    assert pool[..0] + pool[1..] == [AnonGlobal];
    assert [AnonGlobal][..0] + [AnonGlobal][1..] == [];
    assert Collect(AnonGlobal.name, [], 0) == ([], []) && Collect(AnonForSaveA.name, [], 0) == ([], []);
    assert [Matched(AnonGlobal, [])] + [] == [Matched(AnonGlobal, [])];
    assert Collect(AnonForSaveA.name, [AnonGlobal], 0) == ([Matched(AnonGlobal, [])], []);
    assert Collect(Named("saveA"), [], 0) == ([], []);
    assert [Matched(AnonForSaveA, [Matched(AnonGlobal, [])])] + [] == [Matched(AnonForSaveA, [Matched(AnonGlobal, [])])];
  }

  /**
   * The walk as evidently intended: after a match, the scan of the shrunken pool starts
   * again from its beginning, where only non-matching arounds are left in front.
   */
  function CollectAll(target: Name, pool: seq<Around>, i: nat): (r: (Forest, seq<Around>))
    ensures |r.1| <= |pool|
    decreases |pool|, |pool| - i
  {
    if i >= |pool| then ([], pool)
    else if Matches(pool[i], target) then
      var (children, pool1) := CollectAll(pool[i].name, pool[..i] + pool[i + 1..], 0);
      var (siblings, rest) := CollectAll(target, pool1, 0);
      ([Matched(pool[i], children)] + siblings, rest)
    else
      CollectAll(target, pool, i + 1)
  }

  function ResolveAll(target: Name, pool: seq<Around>): (r: (Forest, seq<Around>))
  {
    CollectAll(target, pool, 0)
  }

  lemma {:induction false} CollectAllComplete(target: Name, pool: seq<Around>, i: nat)
    requires forall j :: 0 <= j < i && j < |pool| ==> !Matches(pool[j], target)
    ensures forall k :: 0 <= k < |CollectAll(target, pool, i).1| ==> !Matches(CollectAll(target, pool, i).1[k], target)
    decreases |pool|, |pool| - i
  {
    if i >= |pool| {
    } else if Matches(pool[i], target) {
      var (children, pool1) := CollectAll(pool[i].name, pool[..i] + pool[i + 1..], 0);
      CollectAllComplete(target, pool1, 0);
    } else {
      CollectAllComplete(target, pool, i + 1);
    }
  }

  /** Completeness: no around that wraps the target is left over. */
  lemma ResolveAllComplete(target: Name, pool: seq<Around>)
    ensures forall a :: a in ResolveAll(target, pool).1 ==> !Matches(a, target)
  {
    CollectAllComplete(target, pool, 0);
  }

  lemma {:induction false} CollectAllConserves(target: Name, pool: seq<Around>, i: nat)
    ensures Conserved(CollectAll(target, pool, i), pool)
    decreases |pool|, |pool| - i
  {
    if i >= |pool| {
    } else if Matches(pool[i], target) {
      var spliced := pool[..i] + pool[i + 1..];
      var (children, pool1) := CollectAll(pool[i].name, spliced, 0);
      var (siblings, rest) := CollectAll(target, pool1, 0);
      CollectAllConserves(pool[i].name, spliced, 0);
      CollectAllConserves(target, pool1, 0);
      ConservedStep(pool, i, children, pool1, siblings, rest);
    } else {
      CollectAllConserves(target, pool, i + 1);
    }
  }

  /** The corrected walk, like the original, places each around of the pool at most once. */
  lemma ResolveAllConserves(target: Name, pool: seq<Around>)
    ensures Conserved(ResolveAll(target, pool), pool)
  {
    CollectAllConserves(target, pool, 0);
  }

  lemma {:induction false} CollectAllMatches(target: Name, pool: seq<Around>, i: nat)
    ensures WellMatched(target, CollectAll(target, pool, i).0)
    decreases |pool|, |pool| - i
  {
    if i >= |pool| {
    } else if Matches(pool[i], target) {
      var spliced := pool[..i] + pool[i + 1..];
      var (children, pool1) := CollectAll(pool[i].name, spliced, 0);
      var (siblings, rest) := CollectAll(target, pool1, 0);
      CollectAllMatches(pool[i].name, spliced, 0);
      CollectAllMatches(target, pool1, 0);
      var f := [Matched(pool[i], children)] + siblings;
      forall k | 0 <= k < |f|
        ensures Matches(f[k].around, target) && WellMatched(f[k].around.name, f[k].children)
      {
        if k > 0 { assert f[k] == siblings[k - 1]; }
      }
    } else {
      CollectAllMatches(target, pool, i + 1);
    }
  }

  /** Soundness is kept: every around the corrected walk places wraps its parent or the target. */
  lemma ResolveAllMatches(target: Name, pool: seq<Around>)
    ensures WellMatched(target, ResolveAll(target, pool).0)
  {
    CollectAllMatches(target, pool, 0);
  }

  /** On the example pool the corrected walk also places `y`, after `a`. */
  lemma ResolveAllKeepsCandidate()
    ensures ResolveAll(Named("L"), [ExampleX, ExampleA, ExampleY]) == ([Matched(ExampleA, [Matched(ExampleX, [])]), Matched(ExampleY, [])], [])
  {
    var pool := [ExampleX, ExampleA, ExampleY];
    assert !Matches(ExampleX, Named("L")) && Matches(ExampleA, Named("L"));
    assert pool[..1] + pool[2..] == [ExampleX, ExampleY];
    assert [ExampleX, ExampleY][..0] + [ExampleX, ExampleY][1..] == [ExampleY];
    assert [ExampleY][..0] + [ExampleY][1..] == [];
    assert Matches(ExampleX, ExampleA.name) && !Matches(ExampleY, ExampleA.name) && !Matches(ExampleY, ExampleX.name);
    assert CollectAll(ExampleX.name, [ExampleY], 0) == ([], [ExampleY]);
    assert CollectAll(ExampleA.name, [ExampleY], 0) == ([], [ExampleY]);
    assert [Matched(ExampleX, [])] + [] == [Matched(ExampleX, [])];
    assert CollectAll(ExampleA.name, [ExampleX, ExampleY], 0) == ([Matched(ExampleX, [])], [ExampleY]);
    assert CollectAll(ExampleY.name, [], 0) == ([], []);
    assert CollectAll(Named("L"), [], 0) == ([], []);
    assert [Matched(ExampleY, [])] + [] == [Matched(ExampleY, [])];
    assert CollectAll(Named("L"), [ExampleY], 0) == ([Matched(ExampleY, [])], []);
    assert [Matched(ExampleA, [Matched(ExampleX, [])])] + [Matched(ExampleY, [])] == [Matched(ExampleA, [Matched(ExampleX, [])]), Matched(ExampleY, [])];
    assert CollectAll(Named("L"), pool, 1) == ([Matched(ExampleA, [Matched(ExampleX, [])]), Matched(ExampleY, [])], []);
  }
}
