/** Names a module exports itself without listing them among its direct exports, such as a class or an enum, against
    star sources that export the same name. */
module OwnExports {
  import opened ModuleGraph
  import opened ResolveExport
  import opened ResolveProperties
  import opened ExportRoutes
  import opened SwallowedStars
  import opened Linker
  import opened CyclicImports

  /** A terminal in reach makes the query FOUND, or something on the way is AMBIGUOUS. */
  lemma {:induction false} ReachedIsFound(g: Graph, k: Key, visited: set<Key>, d: Path)
    requires WellKeyed(g) && Reach(g, Terminals(g), k, visited, d)
    ensures Resolve(g, k.0, k.1, visited).Found? || Swallows(g, k, visited)
    decreases Universe(g, k.1) - visited
  {
    var w :| Leads(g, Terminals(g), k, visited, d, w);
    assert k == w[0] && k !in visited;
    assert k.0 in g by { if |w| > 1 { assert Hop(g, w[0], w[1]); } }
    if Resolve(g, k.0, k.1, visited) == Ambiguous {
      AmbiguousHere(g, k, visited);
    } else if k !in Terminals(g) {
      ReachPeel(g, Terminals(g), k, visited, d, w);
      var l :| Hop(g, k, l) && Reach(g, Terminals(g), l, visited + {k}, d);
      UniverseShrinks(g, k.0, k.1, l.1, visited);
      ReachedIsFound(g, l, visited + {k}, d);
      if Swallows(g, l, visited + {k}) {
        SwallowsBelow(g, k, l, visited);
      } else if k.1 !in g[k.0].indirect {
        FoundBranchCounts(g, k, l, visited);
      }
    }
  }

  /** A star branch that is FOUND is among the definers. */
  lemma {:induction false} FoundBranchCounts(g: Graph, k: Key, l: Key, visited: set<Key>)
    requires WellKeyed(g) && Hop(g, k, l) && k !in visited && k.1 !in g[k.0].indirect
    requires Resolve(g, l.0, l.1, visited + {k}).Found?
    ensures var definers := StarDefiners(g, g[k.0].stars, k.1, visited + {k});
            && Resolve(g, l.0, l.1, visited + {k}).definer in definers
            && Resolve(g, k.0, k.1, visited) == Conclude(g[k.0], k.1, definers)
  {
    var d := Resolve(g, l.0, l.1, visited + {k}).definer;
    FoundIsReached(g, l, visited + {k});
    assert BranchGives(g, l.0, k.1, visited + {k}, d);
    StarDefinersAre(g, g[k.0].stars, k.1, visited + {k}, d);
  }

  /** Every declaration in view lies in the module asked. */
  ghost predicate AloneInView(g: Graph, k: Key, visited: set<Key>) {
    forall d :: Reach(g, Terminals(g), k, visited, d) ==> d == k.0
  }

  lemma {:induction false} AloneIsFound(g: Graph, k: Key, visited: set<Key>)
    requires WellKeyed(g) && k in Terminals(g) && k !in visited && AloneInView(g, k, visited)
    ensures Resolve(g, k.0, k.1, visited) == Found(k.0)
  {
    FoundIsReached(g, k, visited);
  }

  /** A star source that leads to a declaration elsewhere takes the answer away from the module asked. */
  lemma {:induction false} StarTakesOver(g: Graph, k: Key, visited: set<Key>, d: Path)
    requires WellKeyed(g) && NoRenames(g) && !SwallowsInside(g, k, visited)
    requires Reach(g, Terminals(g), k, visited, d) && d != k.0
    ensures Resolve(g, k.0, k.1, visited) != Found(k.0)
  {
    var w :| Leads(g, Terminals(g), k, visited, d, w);
    assert k == w[0] && k !in visited;
    ReachPeel(g, Terminals(g), k, visited, d, w);
    var l :| Hop(g, k, l) && Reach(g, Terminals(g), l, visited + {k}, d);
    ReachedIsFound(g, l, visited + {k}, d);
    if Swallows(g, l, visited + {k}) {
      SwallowsBelow(g, k, l, visited);
    } else {
      FoundBranchCounts(g, k, l, visited);
      FoundElsewhere(g, k, l, visited);
    }
  }

  /** A branch below `k` is never credited to the module of `k` itself. */
  lemma {:induction false} FoundElsewhere(g: Graph, k: Key, l: Key, visited: set<Key>)
    requires WellKeyed(g) && NoRenames(g) && Hop(g, k, l)
    requires Resolve(g, l.0, l.1, visited + {k}).Found?
    ensures Resolve(g, l.0, l.1, visited + {k}).definer != k.0
  {
    var d := Resolve(g, l.0, l.1, visited + {k}).definer;
    FoundIsReached(g, l, visited + {k});
    var v :| Leads(g, Terminals(g), l, visited + {k}, d, v);
    RouteKeepsName(g, v, |v| - 1);
    assert v[|v|-1] != k;
  }

  /** A name that is in a module's table but not among its direct exports wins against the star sources exactly when
      these lead to no declaration in any other module; otherwise one of them wins, or the query is AMBIGUOUS. */
  lemma {:induction false} OwnNameWinsIff(g: Graph, k: Key, visited: set<Key>)
    requires WellKeyed(g) && NoRenames(g)
    requires k in Terminals(g) && k !in visited && !SwallowsInside(g, k, visited)
    ensures var r := Resolve(g, k.0, k.1, visited);
            && (r == Found(k.0) <==> AloneInView(g, k, visited))
            && (r.Found? || r.Ambiguous?)
  {
    if AloneInView(g, k, visited) {
      AloneIsFound(g, k, visited);
    } else {
      var d :| Reach(g, Terminals(g), k, visited, d) && d != k.0;
      StarTakesOver(g, k, visited, d);
    }
  }

  // ---------------------------------------------------------------- a class against a star source

  const DECLARE_CLASS := Declaration(ClassDecl, "C", true, false)
  const DECLARE_FUNCTION := Declaration(FunctionDecl, "C", true, false)

  /** `a.ts`: `export class C {}  export * from './b'`, `b.ts`: `export function C() {}`. */
  const CLASS_AND_STAR: Program := map[
    "a" := EsModule([DECLARE_CLASS, FROM_B]),
    "b" := EsModule([DECLARE_FUNCTION])]

  const B_LOADED := Plain("b", {"C"}, [], {"C"})
  const A_LOADED := Plain("a", {}, ["b"], {"C"}).(types := {"C"})
  const A_STARTED := Plain("a", {}, [], {}).(types := {"C"}, analyzed := false)

  lemma {:induction false} LoadFunction(st: State)
    requires "b" !in st.mods
    ensures Load(CLASS_AND_STAR, st, "b") == State(st.mods["b" := B_LOADED], st.order + ["b"])
  {
    var m := Bare("b", EsModule([DECLARE_FUNCTION]));
    assert [DECLARE_FUNCTION][..0] == [];
    assert HoistAll(m, [DECLARE_FUNCTION]) == DirectValue(m, "C");
    var st1 := st.(mods := st.mods["b" := DirectValue(m, "C")]);
    VisitOne(CLASS_AND_STAR, st1, "b", DECLARE_FUNCTION);
    assert DirectValue(DirectValue(m, "C"), "C") == DirectValue(m, "C");
    assert {} + {"C"} == {"C"};
  }

  lemma {:induction false} HoistsClass()
    ensures HoistAll(Bare("a", EsModule([DECLARE_CLASS, FROM_B])), [DECLARE_CLASS, FROM_B]) == A_STARTED
  {
    var m := Bare("a", EsModule([DECLARE_CLASS, FROM_B]));
    assert [DECLARE_CLASS, FROM_B][..1] == [DECLARE_CLASS] && [DECLARE_CLASS][..0] == [];
    assert HoistAll(m, [DECLARE_CLASS]) == DefineType(m, "C");
    assert {} + {"C"} == {"C"};
  }

  lemma {:induction false} VisitClass(st: State)
    requires "a" in st.mods && st.mods["a"] == A_STARTED
    ensures Visit(CLASS_AND_STAR, st, "a", DECLARE_CLASS) == st
  {
    assert {"C"} + {"C"} == {"C"};
    assert st.mods["a" := A_STARTED] == st.mods;
  }

  lemma {:induction false} VisitStarOfB(st: State)
    requires "a" in st.mods && st.mods["a"] == A_STARTED && "b" !in st.mods
    ensures Visit(CLASS_AND_STAR, st, "a", FROM_B)
         == State(st.mods["b" := B_LOADED]["a" := A_LOADED.(analyzed := false)], st.order + ["b"])
  {
    LoadFunction(st);
    var g := st.mods["b" := B_LOADED];
    assert g["a" := g["a"]] == g;
    assert {} + ({"C"} - {DEFAULT}) == {"C"} by { assert "C" != DEFAULT; }
    assert {"C"} + ({} - {DEFAULT}) == {"C"};
    assert Step(g, g["a"], FROM_B) == A_LOADED.(analyzed := false);
  }

  lemma {:induction false} LoadClassAndStar()
    ensures Load(CLASS_AND_STAR, EMPTY, "a").mods == map["a" := A_LOADED, "b" := B_LOADED]
  {
    var st := State(map["a" := A_STARTED], []);
    HoistsClass();
    assert EMPTY.mods["a" := A_STARTED] == st.mods;
    VisitOne(CLASS_AND_STAR, st, "a", DECLARE_CLASS);
    VisitClass(st);
    VisitStarOfB(st);
    VisitTwo(CLASS_AND_STAR, st, "a", DECLARE_CLASS, FROM_B);
    assert Finish(A_LOADED.(analyzed := false)) == A_LOADED;
    assert st.mods["b" := B_LOADED]["a" := A_LOADED] == map["a" := A_LOADED, "b" := B_LOADED];
  }

  /** `a` exports its own class `C`, which is in its table, and resolving `C` from it yields the function of `b`. */
  lemma {:induction false} StarBeatsOwnClass()
    ensures var g := Load(CLASS_AND_STAR, EMPTY, "a").mods;
            && "a" in g && "C" in g["a"].types
            && Resolve(g, "a", "C", {}) == Found("b")
  {
    LoadClassAndStar();
    var g: Graph := map["a" := A_LOADED, "b" := B_LOADED];
    var seen := {("a", "C")};
    assert {} + seen == seen;
    assert Resolve(g, "b", "C", seen) == Found("b");
    assert ["b"][..0] == [];
    assert StarDefiners(g, [], "C", seen) == {};
    assert StarDefiners(g, ["b"], "C", seen) == {"b"};
  }
}
