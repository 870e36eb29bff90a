/** When the answer of the export search is right: the converse of `ExportRoutes.ResolveReportsVisible`. */
module SwallowedStars {
  import opened ExportRoutes
  import opened ModuleGraph
  import opened ResolveExport
  import opened ResolveProperties

  /** Somewhere on a simple route, perhaps at its start, the search is AMBIGUOUS. */
  ghost predicate Swallows(g: Graph, k: Key, visited: set<Key>) {
    exists w :: SimpleRoute(g, k, visited, w) && AmbiguousAtEnd(g, w, visited)
  }

  ghost predicate AmbiguousAtEnd(g: Graph, w: seq<Key>, visited: set<Key>)
    requires |w| > 0
  {
    Resolve(g, w[|w|-1].0, w[|w|-1].1, visited + Earlier(w)) == Ambiguous
  }

  /** The same of a branch below the query: there the star loop above it swallows the result. */
  ghost predicate SwallowsInside(g: Graph, k: Key, visited: set<Key>) {
    exists w :: |w| > 1 && SimpleRoute(g, k, visited, w) && AmbiguousAtEnd(g, w, visited)
  }

  /** Names in a table that are not the module's own: where the search goes astray. */
  ghost function Strays(g: Graph, own: iset<Key>): iset<Key> {
    Terminals(g) - own
  }

  /** The query is answered with the module of a stray name. */
  ghost predicate Astray(g: Graph, own: iset<Key>, k: Key, visited: set<Key>) {
    var r := Resolve(g, k.0, k.1, visited);
    r.Found? && r.definer in g && Reach(g, Strays(g, own), k, visited, r.definer)
  }

  /** `w` ends at a stray name from which no declaration can be reached without crossing the route. */
  ghost predicate BadRoute(g: Graph, own: iset<Key>, k: Key, visited: set<Key>, w: seq<Key>) {
    && SimpleRoute(g, k, visited, w) && w[|w|-1] in Strays(g, own)
    && !ReachesAny(g, own, w[|w|-1], visited + Earlier(w))
  }

  lemma {:induction false} AmbiguousHere(g: Graph, k: Key, visited: set<Key>)
    requires k !in visited && Resolve(g, k.0, k.1, visited) == Ambiguous
    ensures Swallows(g, k, visited)
  {
    assert Earlier([k]) == {} && visited + Earlier([k]) == visited;
    assert SimpleRoute(g, k, visited, [k]) && AmbiguousAtEnd(g, [k], visited);
  }

  lemma {:induction false} EarlierPrepended(k: Key, w: seq<Key>, visited: set<Key>)
    requires |w| > 0
    ensures visited + Earlier([k] + w) == visited + {k} + Earlier(w)
  {
    var kw := [k] + w;
    assert kw[0] == k && forall i :: 0 <= i < |w| ==> kw[i+1] == w[i];
    forall x
      ensures x in Earlier(kw) <==> x == k || x in Earlier(w)
    {
      if x in Earlier(w) {
        var i :| 0 <= i < |w| - 1 && w[i] == x;
        assert kw[i+1] == x;
      }
      if x in Earlier(kw) && x != k {
        var i :| 0 <= i < |kw| - 1 && kw[i] == x;
        assert w[i-1] == x;
      }
    }
  }

  lemma {:induction false} SwallowsBelow(g: Graph, k: Key, l: Key, visited: set<Key>)
    requires Hop(g, k, l) && k !in visited && Swallows(g, l, visited + {k})
    ensures Swallows(g, k, visited) && SwallowsInside(g, k, visited)
  {
    var w :| SimpleRoute(g, l, visited + {k}, w) && AmbiguousAtEnd(g, w, visited + {k});
    EarlierPrepended(k, w, visited);
    assert SimpleRoute(g, k, visited, [k] + w) && AmbiguousAtEnd(g, [k] + w, visited);
  }

  /** A star branch that goes astray makes the whole query ambiguous or takes it along. */
  lemma {:induction false} StrayBranch(g: Graph, own: iset<Key>, k: Key, l: Key, visited: set<Key>)
    requires WellKeyed(g) && Hop(g, k, l) && k !in visited && Astray(g, own, l, visited + {k})
    ensures Swallows(g, k, visited) || Astray(g, own, k, visited)
  {
    var seen, m := visited + {k}, g[k.0];
    var d := Resolve(g, l.0, l.1, seen).definer;
    ReachExtend(g, Strays(g, own), k, l, visited, d);
    if k.1 !in m.indirect {
      assert BranchGives(g, l.0, k.1, seen, d);
      StarDefinersAre(g, m.stars, k.1, seen, d);
      var definers := StarDefiners(g, m.stars, k.1, seen);
      assert Resolve(g, k.0, k.1, visited) == Conclude(m, k.1, definers);
      assert definers == {d} + (definers - {d});
      if definers == {d} {
        assert Resolve(g, k.0, k.1, visited) == Found(d);
      } else {
        assert definers - {d} != {} && |definers| == 1 + |definers - {d}|;
        AmbiguousHere(g, k, visited);
      }
    }
  }

  /** Every end the query reaches is a stray one when no declaration is reachable. */
  lemma {:induction false} OnlyStraysReached(g: Graph, own: iset<Key>, k: Key, visited: set<Key>, d: Path)
    requires Reach(g, Terminals(g), k, visited, d) && !ReachesAny(g, own, k, visited)
    ensures Reach(g, Strays(g, own), k, visited, d)
  {
    var w :| Leads(g, Terminals(g), k, visited, d, w);
    if w[|w|-1] in own {
      assert Leads(g, own, k, visited, d, w);
      assert Reach(g, own, k, visited, d);
    } else {
      assert Leads(g, Strays(g, own), k, visited, d, w);
    }
  }

  lemma {:induction false} StrayHere(g: Graph, own: iset<Key>, k: Key, visited: set<Key>)
    requires WellKeyed(g) && Declares(g, own) && k in Strays(g, own) && k !in visited
    requires !ReachesAny(g, own, k, visited)
    ensures Swallows(g, k, visited) || Astray(g, own, k, visited)
  {
    FoundIsReached(g, k, visited);
    var r := Resolve(g, k.0, k.1, visited);
    if r.Found? {
      OnlyStraysReached(g, own, k, visited, r.definer);
    } else {
      assert r == Ambiguous;
      AmbiguousHere(g, k, visited);
    }
  }

  /** A bad route shows: a result on the way is AMBIGUOUS, or the query is answered with a stray module. */
  lemma {:induction false} BadRouteShows(g: Graph, own: iset<Key>, k: Key, visited: set<Key>, w: seq<Key>)
    requires WellKeyed(g) && Declares(g, own) && BadRoute(g, own, k, visited, w)
    ensures Swallows(g, k, visited) || Astray(g, own, k, visited)
    decreases |w|
  {
    assert w[0] == k;
    if |w| == 1 {
      assert Earlier(w) == {} && visited + Earlier(w) == visited;
      StrayHere(g, own, k, visited);
    } else {
      var l, rest := w[1], w[1..];
      assert Hop(g, w[0], w[1]);
      assert w == [k] + rest;
      EarlierPrepended(k, rest, visited);
      assert SimpleRoute(g, l, visited + {k}, rest);
      BadRouteShows(g, own, l, visited + {k}, rest);
      if Swallows(g, l, visited + {k}) {
        SwallowsBelow(g, k, l, visited);
      } else {
        StrayBranch(g, own, k, l, visited);
      }
    }
  }

  // ---------------------------------------------------------------- exactly when the answer is right

  /** The search reports the visible declaring module, if there is one, and never a conflict. */
  ghost predicate AnswersRightly(g: Graph, own: iset<Key>, k: Key) {
    && !Resolve(g, k.0, k.1, {}).Ambiguous?
    && forall d :: Resolve(g, k.0, k.1, {}) == Found(d) <==> Visible(g, own, k, d)
  }

  /** What is AMBIGUOUS on a route is so below the query or at the query itself. */
  lemma {:induction false} InsideOrHere(g: Graph, k: Key, visited: set<Key>)
    requires Swallows(g, k, visited)
    ensures SwallowsInside(g, k, visited) || Resolve(g, k.0, k.1, visited) == Ambiguous
  {
    var w :| SimpleRoute(g, k, visited, w) && AmbiguousAtEnd(g, w, visited);
    if |w| == 1 {
      assert w[0] == k && Earlier(w) == {} && visited + Earlier(w) == visited;
    } else {
      assert SwallowsInside(g, k, visited);
    }
  }

  /** No module is reached both by a stray name and by a declaration. */
  ghost predicate StraysApart(g: Graph, own: iset<Key>, k: Key) {
    forall d :: Reach(g, Strays(g, own), k, {}, d) ==> !Visible(g, own, k, d)
  }

  /** If no branch is swallowed, the search is right exactly when the query is open. */
  lemma {:induction false} RightIffOpen(g: Graph, own: iset<Key>, k: Key)
    requires WellKeyed(g) && Declares(g, own) && AtMostOneVisible(g, own, k)
    requires StraysApart(g, own, k) && !SwallowsInside(g, k, {})
    ensures AnswersRightly(g, own, k) <==> Open(g, own, k, {})
  {
    if Open(g, own, k, {}) {
      ResolveReportsVisible(g, own, k.0, k.1);
    } else {
      var w :| SimpleRoute(g, k, {}, w) && w[|w|-1] in Terminals(g) - own
            && !ReachesAny(g, own, w[|w|-1], {} + Earlier(w));
      assert BadRoute(g, own, k, {}, w);
      BadRouteShows(g, own, k, {}, w);
      if Swallows(g, k, {}) {
        InsideOrHere(g, k, {});
      } else {
        var d := Resolve(g, k.0, k.1, {}).definer;
        assert !Visible(g, own, k, d);
      }
    }
  }

  /** There are direct and star entries only. */
  ghost predicate NoRenames(g: Graph) {
    forall p :: p in g ==> g[p].indirect == map[]
  }

  lemma {:induction false} RouteKeepsName(g: Graph, w: seq<Key>, i: nat)
    requires NoRenames(g) && Route(g, w) && i < |w|
    ensures w[i].1 == w[0].1
    decreases i
  {
    if i > 0 {
      RouteKeepsName(g, w, i - 1);
      assert Hop(g, w[i-1], w[i]);
    }
  }

  /** Without renamed re-exports a module is reached under the queried name only. */
  lemma {:induction false} NoRenamesApart(g: Graph, own: iset<Key>, k: Key)
    requires NoRenames(g)
    ensures StraysApart(g, own, k)
  {
    forall d | Reach(g, Strays(g, own), k, {}, d)
      ensures !Visible(g, own, k, d)
    {
      var v :| Leads(g, Strays(g, own), k, {}, d, v);
      RouteKeepsName(g, v, |v| - 1);
      assert (d, k.1) !in own;
      forall w
        ensures !Leads(g, own, k, {}, d, w)
      {
        if Route(g, w) && w[0] == k { RouteKeepsName(g, w, |w| - 1); }
      }
    }
  }

  /** On graphs of direct and star entries, cyclic or not, with at most one declaring module visible and no branch
      swallowed, the search is right if and only if the query is open. */
  lemma {:induction false} StarSearchRightIff(g: Graph, own: iset<Key>, p: Path, name: Name)
    requires WellKeyed(g) && Declares(g, own) && NoRenames(g)
    requires AtMostOneVisible(g, own, (p, name)) && !SwallowsInside(g, (p, name), {})
    ensures AnswersRightly(g, own, (p, name)) <==> Open(g, own, (p, name), {})
  {
    NoRenamesApart(g, own, (p, name));
    RightIffOpen(g, own, (p, name));
  }

  // ---------------------------------------------------------------- the cycle that misleads

  lemma {:induction false} CyclicRoutes(w: seq<Key>)
    requires Route(CYCLIC_STARS, w) && w[0] == ("a", "x") && |w| > 1
    ensures w[1] == ("c", "x") || w[1] == ("b", "x")
    ensures |w| > 2 ==> w[2] == w[0]
  {
    assert Hop(CYCLIC_STARS, w[0], w[1]);
    assert |w| > 2 ==> Hop(CYCLIC_STARS, w[1], w[2]);
  }

  /** `CYCLIC_STARS` meets the hypotheses of the theorem: the wrong answer there is one for want of openness, and no
      branch is swallowed. */
  lemma {:induction false} CyclicStarsCovered()
    ensures NoRenames(CYCLIC_STARS) && !SwallowsInside(CYCLIC_STARS, ("a", "x"), {})
    ensures !AnswersRightly(CYCLIC_STARS, iset{("c", "x")}, ("a", "x"))
  {
    var g, a := CYCLIC_STARS, ("a", "x");
    BranchFallsBack();
    CyclicStarsResolve();
    forall w | |w| > 1 && SimpleRoute(g, a, {}, w)
      ensures !AmbiguousAtEnd(g, w, {})
    {
      CyclicRoutes(w);
      assert |w| == 2;
      assert {} + Earlier(w) == {a} by { assert w[0] == a; }
    }
  }

  // ---------------------------------------------------------------- right by accident

  /** `k` re-exports everything from `c` and `l`, `l` from `p` and `q`, and these from `k`; only `c` declares `x`,
      and the eager copies have put `x` into every table. */
  const SWALLOWED: Graph := map[
    "k" := Plain("k", {}, ["c", "l"], {"x"}),
    "l" := Plain("l", {}, ["p", "q"], {"x"}),
    "p" := Plain("p", {}, ["k"], {"x"}),
    "q" := Plain("q", {}, ["k"], {"x"}),
    "c" := Plain("c", {"x"}, [], {"x"})]

  const K: Key := ("k", "x")
  const L: Key := ("l", "x")

  lemma {:induction false} LeafFallsBack(leaf: Path)
    requires leaf == "p" || leaf == "q"
    ensures Resolve(SWALLOWED, leaf, "x", {K, L}) == Found(leaf)
  {
    var g, me := SWALLOWED, (leaf, "x");
    var seen := {K, L} + {me};
    assert Resolve(g, "k", "x", seen) == Circular;
    assert ["k"][..0] == [];
    assert StarDefiners(g, [], "x", seen) == {};
    assert StarDefiners(g, ["k"], "x", seen) == {};
  }

  lemma {:induction false} LIsAmbiguous()
    ensures Resolve(SWALLOWED, "l", "x", {K}) == Ambiguous
  {
    var g := SWALLOWED;
    LeafFallsBack("p");
    LeafFallsBack("q");
    assert {K} + {L} == {K, L};
    assert ["p", "q"][..1] == ["p"] && ["p"][..0] == [];
    assert StarDefiners(g, [], "x", {K, L}) == {};
    assert StarDefiners(g, ["p"], "x", {K, L}) == {"p"};
    assert StarDefiners(g, ["p", "q"], "x", {K, L}) == {"p", "q"};
    assert "p" != "q" && |{"p", "q"}| == 2;
  }

  lemma {:induction false} KFindsC()
    ensures Resolve(SWALLOWED, "k", "x", {}) == Found("c")
  {
    var g := SWALLOWED;
    LIsAmbiguous();
    assert {} + {K} == {K};
    assert Resolve(g, "c", "x", {K}) == Found("c");
    assert ["c", "l"][..1] == ["c"] && ["c"][..0] == [];
    assert StarDefiners(g, [], "x", {K}) == {};
    assert StarDefiners(g, ["c"], "x", {K}) == {"c"};
    assert StarDefiners(g, ["c", "l"], "x", {K}) == {"c"};
  }

  lemma {:induction false} KSwallows()
    ensures SwallowsInside(SWALLOWED, K, {})
  {
    LIsAmbiguous();
    var w := [K, L];
    assert Hop(SWALLOWED, w[0], w[1]);
    assert Earlier(w) == {K} by { assert w[0] == K; }
    assert {} + Earlier(w) == {K};
    assert SimpleRoute(SWALLOWED, K, {}, w) && AmbiguousAtEnd(SWALLOWED, w, {});
  }

  lemma {:induction false} KSeesOnlyC()
    ensures Visible(SWALLOWED, iset{("c", "x")}, K, "c") && AtMostOneVisible(SWALLOWED, iset{("c", "x")}, K)
  {
    var w := [K, ("c", "x")];
    assert Hop(SWALLOWED, w[0], w[1]);
    assert Leads(SWALLOWED, iset{("c", "x")}, K, {}, "c", w);
  }

  lemma {:induction false} KNotOpen()
    ensures !Open(SWALLOWED, iset{("c", "x")}, K, {})
  {
    var g, own, p := SWALLOWED, iset{("c", "x")}, ("p", "x");
    var w := [K, L, p];
    assert Hop(g, w[0], w[1]) && Hop(g, w[1], w[2]);
    assert Earlier(w) == {K, L} by { assert w[0] == K && w[1] == L; }
    assert SimpleRoute(g, K, {}, w) && p in Terminals(g) - own;
    assert {} + Earlier(w) == {K, L};
    forall v | Route(g, v) && v[0] == p && Avoids(v, {K, L})
      ensures v == [p]
    {
      assert |v| > 1 ==> Hop(g, v[0], v[1]);
    }
    assert !ReachesAny(g, own, p, {} + Earlier(w));
  }

  lemma {:induction false} FoundTheOneVisible(g: Graph, own: iset<Key>, k: Key, d: Path)
    requires Resolve(g, k.0, k.1, {}) == Found(d) && Visible(g, own, k, d) && AtMostOneVisible(g, own, k)
    ensures AnswersRightly(g, own, k)
  {}

  lemma {:induction false} SwallowedShape()
    ensures WellKeyed(SWALLOWED) && Declares(SWALLOWED, iset{("c", "x")}) && NoRenames(SWALLOWED)
  {}

  /** The query is not open and still answered rightly: the branch through `l` is AMBIGUOUS and swallowed.  So the
      hypothesis that no branch is swallowed cannot be dropped. */
  lemma {:induction false} RightThoughNotOpen()
    ensures WellKeyed(SWALLOWED) && Declares(SWALLOWED, iset{("c", "x")}) && NoRenames(SWALLOWED)
    ensures AtMostOneVisible(SWALLOWED, iset{("c", "x")}, K) && SwallowsInside(SWALLOWED, K, {})
    ensures !Open(SWALLOWED, iset{("c", "x")}, K, {}) && AnswersRightly(SWALLOWED, iset{("c", "x")}, K)
  {
    SwallowedShape();
    KFindsC();
    KSwallows();
    KSeesOnlyC();
    KNotOpen();
    FoundTheOneVisible(SWALLOWED, iset{("c", "x")}, K, "c");
  }

  // ---------------------------------------------------------------- without cycles

  /** `m` takes `x` from `cjs`, which has none and is forgiven, and everything else from `c`; the copy of `c`'s `x` has
      come through `m` into the table of `k` all the same. */
  const FORGIVEN: Graph := map[
    "k" := Plain("k", {}, ["m"], {"x"}),
    "m" := Plain("m", {}, ["c"], {"x"}).(indirect := map["x" := ("cjs", "x")]),
    "c" := Plain("c", {"x"}, [], {"x"}),
    "cjs" := Plain("cjs", {}, [], {"default"})]

  function Depth(p: Path): nat {
    if p == "k" then 2 else if p == "m" then 1 else 0
  }

  lemma {:induction false} ForgivenShape()
    ensures WellKeyed(FORGIVEN) && Declares(FORGIVEN, iset{("c", "x")}) && Ranked(FORGIVEN, Depth)
  {}

  lemma {:induction false} ForgivenFindsK()
    ensures Resolve(FORGIVEN, "k", "x", {}) == Found("k")
  {
    var g, m := FORGIVEN, ("m", "x");
    assert {} + {K} == {K};
    assert StarDefiners(g, [], "x", {K} + {m} + {("cjs", "x")}) == {};
    assert Resolve(g, "cjs", "x", {K} + {m}) == NotFound;
    assert Resolve(g, "m", "x", {K}) == NotFound;
    assert ["m"][..0] == [];
    assert StarDefiners(g, [], "x", {K}) == {};
    assert StarDefiners(g, ["m"], "x", {K}) == {};
  }

  /** Nothing in view of `k` leads on to the declaration in `c`. */
  lemma {:induction false} ForgivenSeesNothing(d: Path)
    ensures !Visible(FORGIVEN, iset{("c", "x")}, K, d)
  {
    assert forall l :: !Hop(FORGIVEN, l, ("c", "x"));
    forall w
      ensures !Leads(FORGIVEN, iset{("c", "x")}, K, {}, d, w)
    {
      if Route(FORGIVEN, w) && |w| > 1 {
        var before := |w| - 2;
        assert Hop(FORGIVEN, w[before], w[before+1]);
      }
    }
  }

  /** Re-exports without a cycle are not enough: such a forgiven re-export makes the search report a module that
      declares nothing. */
  lemma {:induction false} ForgivenReexportMisleads()
    ensures WellKeyed(FORGIVEN) && Declares(FORGIVEN, iset{("c", "x")}) && Ranked(FORGIVEN, Depth)
    ensures Resolve(FORGIVEN, "k", "x", {}) == Found("k")
    ensures (forall d :: !Visible(FORGIVEN, iset{("c", "x")}, K, d)) && !Open(FORGIVEN, iset{("c", "x")}, K, {})
  {
    ForgivenShape();
    ForgivenFindsK();
    forall d ensures !Visible(FORGIVEN, iset{("c", "x")}, K, d) { ForgivenSeesNothing(d); }
    if Open(FORGIVEN, iset{("c", "x")}, K, {}) { ResolveReportsVisible(FORGIVEN, iset{("c", "x")}, "k", "x"); }
  }
}
