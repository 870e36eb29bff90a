/** Export resolution against reachability: which modules a query can see, following named and star
    re-exports, and when the search reports exactly the one it sees. */
module ExportRoutes {
  import opened ModuleGraph
  import opened ResolveExport
  import opened ResolveProperties

  // ---------------------------------------------------------------- routes through the re-exports

  /** One re-export edge between queries: a named entry decides alone; otherwise an undeclared name, except
      `default`, may come from any star source. */
  ghost predicate Hop(g: Graph, k: Key, l: Key) {
    && k.0 in g && l.0 in g
    && if k.1 in g[k.0].indirect then g[k.0].indirect[k.1] == l
       else k.1 !in g[k.0].direct && k.1 != DEFAULT && l.0 in g[k.0].stars && l.1 == k.1
  }

  ghost predicate Route(g: Graph, w: seq<Key>) {
    && |w| > 0
    && forall i :: 0 <= i < |w| - 1 ==> Hop(g, w[i], w[i+1])
  }

  ghost predicate Avoids(w: seq<Key>, visited: set<Key>) {
    forall i :: 0 <= i < |w| ==> w[i] !in visited
  }

  /** `w` leads from `k` to a key of `ends` in module `d` without touching `visited`. */
  ghost predicate Leads(g: Graph, ends: iset<Key>, k: Key, visited: set<Key>, d: Path, w: seq<Key>) {
    && Route(g, w) && w[0] == k && Avoids(w, visited)
    && w[|w|-1] in ends && w[|w|-1].0 == d
  }

  ghost predicate Reach(g: Graph, ends: iset<Key>, k: Key, visited: set<Key>, d: Path) {
    exists w :: Leads(g, ends, k, visited, d, w)
  }

  ghost predicate ReachesAny(g: Graph, ends: iset<Key>, k: Key, visited: set<Key>) {
    exists d :: Reach(g, ends, k, visited, d)
  }

  ghost predicate StepsTowards(g: Graph, ends: iset<Key>, k: Key, visited: set<Key>, d: Path) {
    exists l :: Hop(g, k, l) && Reach(g, ends, l, visited + {k}, d)
  }

  lemma {:induction false} ReachHere(g: Graph, ends: iset<Key>, k: Key, visited: set<Key>)
    requires k in ends && k !in visited
    ensures Reach(g, ends, k, visited, k.0)
  {
    assert Leads(g, ends, k, visited, k.0, [k]);
  }

  lemma {:induction false} ReachExtend(g: Graph, ends: iset<Key>, k: Key, l: Key, visited: set<Key>, d: Path)
    requires Hop(g, k, l) && k !in visited
    requires Reach(g, ends, l, visited + {k}, d)
    ensures Reach(g, ends, k, visited, d)
  {
    var w :| Leads(g, ends, l, visited + {k}, d, w);
    assert Leads(g, ends, k, visited, d, [k] + w);
  }

  /** A route can be shortened so that it never returns to its first key. */
  lemma {:induction false} ReachPeel(g: Graph, ends: iset<Key>, k: Key, visited: set<Key>, d: Path, w: seq<Key>)
    requires Leads(g, ends, k, visited, d, w)
    ensures (k in ends && k.0 == d) || StepsTowards(g, ends, k, visited, d)
  {
    var j := |w| - 1;
    while w[j] != k
      invariant 0 <= j < |w|
      invariant forall i :: j < i < |w| ==> w[i] != k
      decreases j
    {
      j := j - 1;
    }
    if j < |w| - 1 {
      assert Hop(g, w[j], w[j+1]);
      assert Leads(g, ends, w[j+1], visited + {k}, d, w[j+1..]);
    }
  }

  // ---------------------------------------------------------------- soundness, with no hypothesis on the tables

  /** Where the search can stop with FOUND: a direct export, a name in the export table, or any name of a
      module that is still being analysed. */
  ghost function Terminals(g: Graph): iset<Key> {
    iset k: Key | && k.0 in g && k.1 !in g[k.0].indirect
                  && (k.1 in g[k.0].direct || g[k.0].Exports(k.1) || !g[k.0].analyzed)
  }

  /** FOUND names a module a re-export route leads to; AMBIGUOUS has two distinct ones. */
  lemma {:induction false} FoundIsReached(g: Graph, k: Key, visited: set<Key>)
    requires WellKeyed(g)
    ensures var r := Resolve(g, k.0, k.1, visited);
            && (r.Found? ==> r.definer in g && Reach(g, Terminals(g), k, visited, r.definer))
            && (r.Ambiguous? ==> exists d, e :: d != e && Reach(g, Terminals(g), k, visited, d)
                                                       && Reach(g, Terminals(g), k, visited, e))
    decreases Universe(g, k.1) - visited
  {
    if k.0 in g && k !in visited {
      var m := g[k.0];
      if k.1 in m.indirect {
        var next := m.indirect[k.1];
        if next.0 in g {
          UniverseShrinks(g, k.0, k.1, next.1, visited);
          FoundIsReached(g, next, visited + {k});
          forall d | Reach(g, Terminals(g), next, visited + {k}, d)
            ensures Reach(g, Terminals(g), k, visited, d)
          {
            ReachExtend(g, Terminals(g), k, next, visited, d);
          }
        }
      } else if k.1 in m.direct {
        ReachHere(g, Terminals(g), k, visited);
      } else {
        var definers := if k.1 == DEFAULT then {} else StarDefiners(g, m.stars, k.1, visited + {k});
        forall d | d in definers
          ensures d in g && Reach(g, Terminals(g), k, visited, d)
        {
          DefinerIsReached(g, k, visited, d);
        }
        if |definers| > 1 {
          var d :| d in definers;
          assert |definers - {d}| > 0;
          var e :| e in definers - {d};
        } else if |definers| == 0 && (m.Exports(k.1) || !m.analyzed) {
          ReachHere(g, Terminals(g), k, visited);
        }
      }
    }
  }

  lemma {:induction false} DefinerIsReached(g: Graph, k: Key, visited: set<Key>, d: Path)
    requires WellKeyed(g) && k.0 in g && k !in visited
    requires k.1 !in g[k.0].indirect && k.1 !in g[k.0].direct && k.1 != DEFAULT
    requires d in StarDefiners(g, g[k.0].stars, k.1, visited + {k})
    ensures d in g && Reach(g, Terminals(g), k, visited, d)
    decreases Universe(g, k.1) - visited, 0
  {
    StarDefinersAre(g, g[k.0].stars, k.1, visited + {k}, d);
    var src :| src in g[k.0].stars && BranchGives(g, src, k.1, visited + {k}, d);
    UniverseShrinks(g, k.0, k.1, k.1, visited);
    FoundIsReached(g, (src, k.1), visited + {k});
    ReachExtend(g, Terminals(g), k, (src, k.1), visited, d);
  }

  // ---------------------------------------------------------------- completeness

  /** `own` are the keys that modules declare themselves: every direct export, and further names only if
      the search can stop at them (an exported class or enum sits in the table alone). */
  ghost predicate Declares(g: Graph, own: iset<Key>) {
    && own <= Terminals(g)
    && forall k: Key :: k.0 in g && k.1 !in g[k.0].indirect && k.1 in g[k.0].direct ==> k in own
  }

  /** The module declaring `k`'s name is visible from `k`. */
  ghost predicate Visible(g: Graph, own: iset<Key>, k: Key, d: Path) {
    Reach(g, own, k, {}, d)
  }

  ghost function Earlier(w: seq<Key>): set<Key>
    requires |w| > 0
  {
    set i | 0 <= i < |w| - 1 :: w[i]
  }

  ghost predicate SimpleRoute(g: Graph, k: Key, visited: set<Key>, w: seq<Key>) {
    && Route(g, w) && w[0] == k && Avoids(w, visited)
    && forall i, j :: 0 <= i < j < |w| ==> w[i] != w[j]
  }

  /** Wherever a simple route from `k` meets a name that is in a module's export table without being its
      own, some declaration of it can still be reached without crossing that route. */
  ghost predicate Open(g: Graph, own: iset<Key>, k: Key, visited: set<Key>) {
    forall w :: SimpleRoute(g, k, visited, w) && w[|w|-1] in Terminals(g) - own ==>
      ReachesAny(g, own, w[|w|-1], visited + Earlier(w))
  }

  lemma {:induction false} OpenStep(g: Graph, own: iset<Key>, k: Key, l: Key, visited: set<Key>)
    requires Open(g, own, k, visited) && Hop(g, k, l) && k !in visited
    ensures Open(g, own, l, visited + {k})
  {
    forall w | SimpleRoute(g, l, visited + {k}, w) && w[|w|-1] in Terminals(g) - own
      ensures ReachesAny(g, own, w[|w|-1], visited + {k} + Earlier(w))
    {
      var kw := [k] + w;
      assert SimpleRoute(g, k, visited, kw);
      assert visited + Earlier(kw) == visited + {k} + Earlier(w) by {
        assert forall x :: x in Earlier(w) ==> x in Earlier(kw) by {
          forall i | 0 <= i < |w| - 1
            ensures w[i] in Earlier(kw)
          {
            assert kw[i+1] == w[i];
          }
        }
        assert kw[0] == k;
      }
    }
  }

  /** With at most one declaring module in sight, the search with path-scoped visited sets reports it
      exactly when a route avoiding the visited keys exists. */
  lemma {:induction false} ReportsTheOneReached(g: Graph, own: iset<Key>, k: Key, visited: set<Key>, one: Path)
    requires WellKeyed(g) && Declares(g, own)
    requires Open(g, own, k, visited)
    requires forall d :: Reach(g, own, k, visited, d) ==> d == one
    ensures var r := Resolve(g, k.0, k.1, visited);
            if Reach(g, own, k, visited, one) then r == Found(one) else r in {NotFound, Circular}
    decreases Universe(g, k.1) - visited, 1, 0
  {
    if k.0 !in g || k in visited {
      if w :| Leads(g, own, k, visited, one, w) {
        assert w[0] == k;
        if k.0 !in g { NoRouteOutside(g, own, k, visited, one, w); }
        assert false;
      }
    } else {
      var m := g[k.0];
      if k.1 in m.indirect {
        var next := m.indirect[k.1];
        assert k !in own;
        if next.0 in g {
          UniverseShrinks(g, k.0, k.1, next.1, visited);
          StepReports(g, own, k, next, visited, one);
        }
        if w :| Leads(g, own, k, visited, one, w) {
          ReachPeel(g, own, k, visited, one, w);
        }
      } else if k.1 in m.direct {
        ReachHere(g, own, k, visited);
      } else {
        StarsReport(g, own, k, visited, one);
      }
    }
  }

  lemma {:induction false} NoRouteOutside(g: Graph, own: iset<Key>, k: Key, visited: set<Key>, d: Path, w: seq<Key>)
    requires Declares(g, own) && Leads(g, own, k, visited, d, w)
    ensures k.0 in g
  {
    if |w| > 1 { assert Hop(g, w[0], w[1]); }
  }

  lemma {:induction false} StepReports(g: Graph, own: iset<Key>, k: Key, l: Key, visited: set<Key>, one: Path)
    requires WellKeyed(g) && Declares(g, own)
    requires Open(g, own, k, visited) && k !in visited && Hop(g, k, l)
    requires forall d :: Reach(g, own, k, visited, d) ==> d == one
    requires Universe(g, l.1) - (visited + {k}) < Universe(g, k.1) - visited
    ensures var r := Resolve(g, l.0, l.1, visited + {k});
            if Reach(g, own, l, visited + {k}, one) then r == Found(one) else r in {NotFound, Circular}
    ensures Reach(g, own, l, visited + {k}, one) ==> Reach(g, own, k, visited, one)
    decreases Universe(g, k.1) - visited, 0, 0
  {
    OpenStep(g, own, k, l, visited);
    forall d | Reach(g, own, l, visited + {k}, d)
      ensures Reach(g, own, k, visited, d)
    {
      ReachExtend(g, own, k, l, visited, d);
    }
    ReportsTheOneReached(g, own, l, visited + {k}, one);
  }

  ghost predicate BranchReports(g: Graph, own: iset<Key>, l: Key, seen: set<Key>, one: Path) {
    var r := Resolve(g, l.0, l.1, seen);
    if Reach(g, own, l, seen, one) then r == Found(one) && one != "" else r in {NotFound, Circular}
  }

  ghost predicate SomeBranchReaches(g: Graph, own: iset<Key>, stars: seq<Path>, name: Name, seen: set<Key>, one: Path) {
    exists src :: src in stars && src in g && Reach(g, own, (src, name), seen, one)
  }

  lemma {:induction false} DefinersAre(g: Graph, own: iset<Key>, stars: seq<Path>, name: Name, seen: set<Key>,
                                       one: Path)
    requires forall src :: src in stars && src in g ==> BranchReports(g, own, (src, name), seen, one)
    ensures StarDefiners(g, stars, name, seen) ==
            if SomeBranchReaches(g, own, stars, name, seen, one) then {one} else {}
  {
    var definers := StarDefiners(g, stars, name, seen);
    forall d | d in definers
      ensures d == one && SomeBranchReaches(g, own, stars, name, seen, one)
    {
      StarDefinersAre(g, stars, name, seen, d);
      var src :| src in stars && BranchGives(g, src, name, seen, d);
      assert BranchReports(g, own, (src, name), seen, one);
    }
    if SomeBranchReaches(g, own, stars, name, seen, one) {
      var src :| src in stars && src in g && Reach(g, own, (src, name), seen, one);
      assert BranchReports(g, own, (src, name), seen, one);
      assert BranchGives(g, src, name, seen, one);
      StarDefinersAre(g, stars, name, seen, one);
    }
  }

  /** Without a star branch that reaches it, a declaring module is reached only if it is the queried one. */
  lemma {:induction false} NoBranchReaches(g: Graph, own: iset<Key>, k: Key, visited: set<Key>, one: Path)
    requires Declares(g, own) && Open(g, own, k, visited) && k.0 in g && k !in visited
    requires k.1 !in g[k.0].indirect && k.1 !in g[k.0].direct
    requires forall d :: Reach(g, own, k, visited, d) ==> d == one
    requires k.1 != DEFAULT ==> !SomeBranchReaches(g, own, g[k.0].stars, k.1, visited + {k}, one)
    ensures Reach(g, own, k, visited, one) <==> k in own && k.0 == one
    ensures k in own ==> Reach(g, own, k, visited, k.0)
    ensures k !in own ==> k !in Terminals(g)
  {
    if k in own { ReachHere(g, own, k, visited); }
    if w :| Leads(g, own, k, visited, one, w) { ReachPeel(g, own, k, visited, one, w); }
    assert k in Terminals(g) - own ==> ReachesAny(g, own, k, visited) by {
      assert k in Terminals(g) - own ==> SimpleRoute(g, k, visited, [k]);
      assert Earlier([k]) == {} && visited + Earlier([k]) == visited;
    }
  }

  lemma {:induction false} StarsReport(g: Graph, own: iset<Key>, k: Key, visited: set<Key>, one: Path)
    requires WellKeyed(g) && Declares(g, own)
    requires Open(g, own, k, visited) && k.0 in g && k !in visited
    requires k.1 !in g[k.0].indirect && k.1 !in g[k.0].direct
    requires forall d :: Reach(g, own, k, visited, d) ==> d == one
    ensures var r := Resolve(g, k.0, k.1, visited);
            if Reach(g, own, k, visited, one) then r == Found(one) else r in {NotFound, Circular}
    decreases Universe(g, k.1) - visited, 0, 1
  {
    var stars, seen := g[k.0].stars, visited + {k};
    UniverseShrinks(g, k.0, k.1, k.1, visited);
    forall src | src in stars && src in g && k.1 != DEFAULT
      ensures BranchReports(g, own, (src, k.1), seen, one)
      ensures Reach(g, own, (src, k.1), seen, one) ==> Reach(g, own, k, visited, one)
    {
      StepReports(g, own, k, (src, k.1), visited, one);
      FoundIsReached(g, (src, k.1), seen);
    }
    if k.1 != DEFAULT {
      DefinersAre(g, own, stars, k.1, seen, one);
      if SomeBranchReaches(g, own, stars, k.1, seen, one) {
        assert StarDefiners(g, stars, k.1, seen) == {one};
        assert Resolve(g, k.0, k.1, visited) == Conclude(g[k.0], k.1, {one}) == Found(one);
      } else {
        NoBranchReaches(g, own, k, visited, one);
      }
    } else {
      NoBranchReaches(g, own, k, visited, one);
    }
  }

  /** At most one module that declares the queried name is visible from the query. */
  ghost predicate AtMostOneVisible(g: Graph, own: iset<Key>, k: Key) {
    forall d, e :: Visible(g, own, k, d) && Visible(g, own, k, e) ==> d == e
  }

  /** The whole answer: FOUND with the visible module exactly when there is one; otherwise CIRCULAR when the
      query's chain of named re-exports never ends, and NOT_FOUND in every other case. */
  lemma {:induction false} ResolveReportsVisible(g: Graph, own: iset<Key>, p: Path, name: Name)
    requires WellKeyed(g) && Declares(g, own)
    requires Open(g, own, (p, name), {})
    requires AtMostOneVisible(g, own, (p, name))
    ensures forall d :: Resolve(g, p, name, {}) == Found(d) <==> Visible(g, own, (p, name), d)
    ensures Resolve(g, p, name, {}) == Circular <==> forall n: nat :: ChainStays(g, (p, name), n)
    ensures Resolve(g, p, name, {}) != Ambiguous
  {
    var k := (p, name);
    CircularIffChainEndless(g, p, name);
    var one: Path := "";
    if d :| Visible(g, own, k, d) { one := d; }
    forall d | Reach(g, own, k, {}, d)
      ensures d == one
    {
      assert Visible(g, own, k, d) && Visible(g, own, k, one);
    }
    ReportsTheOneReached(g, own, k, {}, one);
  }

  // ---------------------------------------------------------------- when every query is open

  /** Sufficient: no table binds a name its module does not itself declare. */
  lemma {:induction false} OwnTablesAreOpen(g: Graph, own: iset<Key>, k: Key)
    requires Terminals(g) <= own
    ensures Open(g, own, k, {})
  {}

  ghost predicate Ranked(g: Graph, rank: Path -> nat) {
    forall k: Key, l: Key :: Hop(g, k, l) ==> rank(l.0) < rank(k.0)
  }

  lemma {:induction false} RouteDescends(g: Graph, rank: Path -> nat, w: seq<Key>, i: nat, j: nat)
    requires Ranked(g, rank) && Route(g, w) && i < j < |w|
    ensures rank(w[j].0) < rank(w[i].0)
    decreases j
  {
    assert Hop(g, w[j-1], w[j]);
    if i < j - 1 { RouteDescends(g, rank, w, i, j - 1); }
  }

  /** Sufficient: the re-export edges have no cycle, and a name in a table that is not the module's own was
      copied from a module that can see a declaration of it. */
  lemma {:induction false} AcyclicIsOpen(g: Graph, own: iset<Key>, rank: Path -> nat, k: Key)
    requires Ranked(g, rank)
    requires forall l :: l in Terminals(g) - own ==> ReachesAny(g, own, l, {})
    ensures Open(g, own, k, {})
  {
    forall w | SimpleRoute(g, k, {}, w) && w[|w|-1] in Terminals(g) - own
      ensures ReachesAny(g, own, w[|w|-1], {} + Earlier(w))
    {
      var l := w[|w|-1];
      var d :| Reach(g, own, l, {}, d);
      var v :| Leads(g, own, l, {}, d, v);
      forall i, j | 0 <= i < |v| && 0 <= j < |w| - 1
        ensures v[i] != w[j]
      {
        RouteDescends(g, rank, w, j, |w| - 1);
        if i > 0 { RouteDescends(g, rank, v, 0, i); }
      }
      assert Leads(g, own, l, {} + Earlier(w), d, v);
      assert Reach(g, own, l, {} + Earlier(w), d);
    }
  }

  // ---------------------------------------------------------------- where the fallback misleads

  function Plain(path: Path, direct: set<Name>, stars: seq<Path>, table: set<Name>): Module {
    Module(path, FileKind(true, false, false, false, true, false), direct, map[], stars, table, {}, true, "")
  }

  /** `a` re-exports everything from `c` and from `b`, `b` everything from `a`; only `c` declares `x`, and
      the eager copies have put `x` into every table. */
  const CYCLIC_STARS: Graph := map[
    "a" := Plain("a", {}, ["c", "b"], {"x"}),
    "b" := Plain("b", {}, ["a"], {"x"}),
    "c" := Plain("c", {"x"}, [], {"x"})]

  /** Without `Open` the classification fails: one module declares `x`, yet the query is AMBIGUOUS, because
      the branch through `b` is cut off at `a` and falls back on `b`'s own copied table. */
  lemma {:induction false} CyclicStarsMislead()
    ensures var g, own := CYCLIC_STARS, iset{("c", "x")};
            && WellKeyed(g) && Declares(g, own)
            && Visible(g, own, ("a", "x"), "c") && AtMostOneVisible(g, own, ("a", "x"))
            && !Open(g, own, ("a", "x"), {})
            && Resolve(g, "a", "x", {}) == Ambiguous
  {
    CyclicStarsResolve();
    CyclicStarsNotOpen();
    CyclicStarsSeeC();
  }

  lemma {:induction false} CyclicStarsSeeC()
    ensures WellKeyed(CYCLIC_STARS) && Declares(CYCLIC_STARS, iset{("c", "x")})
    ensures Visible(CYCLIC_STARS, iset{("c", "x")}, ("a", "x"), "c")
    ensures AtMostOneVisible(CYCLIC_STARS, iset{("c", "x")}, ("a", "x"))
  {
    var w := [("a", "x"), ("c", "x")];
    assert Hop(CYCLIC_STARS, w[0], w[1]);
    assert Leads(CYCLIC_STARS, iset{("c", "x")}, ("a", "x"), {}, "c", w);
  }

  /** The branch through `b` is cut off at `a` and falls back on `b`'s table. */
  lemma {:induction false} BranchFallsBack()
    ensures Resolve(CYCLIC_STARS, "b", "x", {("a", "x")}) == Found("b")
  {
    var g := CYCLIC_STARS;
    var a, b := ("a", "x"), ("b", "x");
    assert {a} + {b} == {a, b};
    assert Resolve(g, "a", "x", {a, b}) == Circular;
    assert ["a"][..0] == [];
    assert StarDefiners(g, [], "x", {a, b}) == {};
    assert StarDefiners(g, ["a"], "x", {a, b}) == {};
  }

  lemma {:induction false} CyclicStarsResolve()
    ensures Resolve(CYCLIC_STARS, "a", "x", {}) == Ambiguous
  {
    var g := CYCLIC_STARS;
    var a := ("a", "x");
    BranchFallsBack();
    assert StarDefiners(g, [], "x", {a}) == {};
    assert Resolve(g, "c", "x", {a}) == Found("c");
    assert ["c", "b"][..1] == ["c"] && ["c"][..0] == [];
    assert StarDefiners(g, ["c"], "x", {a}) == {"c"};
    assert StarDefiners(g, ["c", "b"], "x", {a}) == {"c", "b"};
    assert {} + {a} == {a};
    assert "c" != "b" && |{"c", "b"}| == 2;
  }

  lemma {:induction false} CyclicStarsNotOpen()
    ensures !Open(CYCLIC_STARS, iset{("c", "x")}, ("a", "x"), {})
  {
    var g, own := CYCLIC_STARS, iset{("c", "x")};
    var a, b := ("a", "x"), ("b", "x");
    assert Hop(g, a, b);
    assert SimpleRoute(g, a, {}, [a, b]);
    assert Earlier([a, b]) == {a} by { assert [a, b][0] == a; }
    assert b in Terminals(g) - own;
    forall w | Route(g, w) && w[0] == b && Avoids(w, {} + Earlier([a, b]))
      ensures w == [b]
    {
      OnlyThroughA(w);
    }
    assert !ReachesAny(g, own, b, {} + Earlier([a, b]));
  }

  lemma {:induction false} OnlyThroughA(w: seq<Key>)
    requires Route(CYCLIC_STARS, w) && w[0] == ("b", "x") && Avoids(w, {("a", "x")})
    ensures w == [("b", "x")]
  {
    assert |w| > 1 ==> Hop(CYCLIC_STARS, w[0], w[1]);
  }
}
