/** Three files whose loading produces the misleading tables of `ExportRoutes.CyclicStarsMislead`. */
module CyclicImports {
  import opened ModuleGraph
  import opened ResolveExport
  import opened ExportRoutes
  import opened Linker

  function EsModule(ss: seq<Statement>): Source {
    Code(ss, false, true, false)
  }

  const FROM_A := ExportStar("a", "./a")
  const FROM_B := ExportStar("b", "./b")
  const FROM_C := ExportStar("c", "./c")
  const DECLARE_X := Declaration(FunctionDecl, "x", true, false)

  /** `a.js`: `export * from './c'; export * from './b'`, `b.js`: `export * from './a'`, `c.js`: `export function x`. */
  const STAR_CYCLE: Program := map[
    "a" := EsModule([FROM_C, FROM_B]),
    "b" := EsModule([FROM_A]),
    "c" := EsModule([DECLARE_X])]

  function InProgress(path: Path, stars: seq<Path>, table: set<Name>): Module {
    Plain(path, {}, stars, table).(analyzed := false)
  }

  lemma {:induction false} StartedEmpty(p: Path, ss: seq<Statement>)
    requires forall i :: 0 <= i < |ss| ==> !ss[i].Declaration?
    ensures HoistAll(Bare(p, EsModule(ss)), ss) == InProgress(p, [], {})
    decreases |ss|
  {
    HoistNothing(Bare(p, EsModule(ss)), ss);
  }

  lemma {:induction false} HoistNothing(m: Module, ss: seq<Statement>)
    requires forall i :: 0 <= i < |ss| ==> !ss[i].Declaration?
    ensures HoistAll(m, ss) == m
    decreases |ss|
  {
    if ss != [] { HoistNothing(m, ss[..|ss|-1]); }
  }

  lemma {:induction false} VisitOne(prog: Program, st: State, p: Path, s: Statement)
    requires p in st.mods
    ensures VisitAll(prog, st, p, [s]) == Visit(prog, st, p, s)
  {
    assert [s][..0] == [];
  }

  lemma {:induction false} LoadC(st: State)
    requires "c" !in st.mods
    ensures Load(STAR_CYCLE, st, "c") == State(st.mods["c" := Plain("c", {"x"}, [], {"x"})], st.order + ["c"])
  {
    var m := Bare("c", EsModule([DECLARE_X]));
    assert [DECLARE_X][..0] == [];
    assert HoistAll(m, [DECLARE_X]) == DirectValue(m, "x");
    var st1 := st.(mods := st.mods["c" := DirectValue(m, "x")]);
    VisitOne(STAR_CYCLE, st1, "c", DECLARE_X);
    assert DirectValue(DirectValue(m, "x"), "x") == DirectValue(m, "x");
    assert {} + {"x"} == {"x"};
  }

  /** `b` copies the table of `a`, which is still in progress but already holds `x`. */
  lemma {:induction false} LoadB(st: State)
    requires "b" !in st.mods && "a" in st.mods && st.mods["a"] == InProgress("a", ["c"], {"x"})
    ensures Load(STAR_CYCLE, st, "b") == State(st.mods["b" := Plain("b", {}, ["a"], {"x"})], st.order + ["b"])
  {
    StartedEmpty("b", [FROM_A]);
    var st1 := st.(mods := st.mods["b" := InProgress("b", [], {})]);
    VisitOne(STAR_CYCLE, st1, "b", FROM_A);
    assert st1.mods["b" := st1.mods["b"]] == st1.mods;
    assert {} + ({"x"} - {DEFAULT}) == {"x"} by { assert "x" != DEFAULT; }
    assert Step(st1.mods, st1.mods["b"], FROM_A) == InProgress("b", ["a"], {"x"});
  }

  const A0 := State(map["a" := InProgress("a", [], {})], [])
  const A1 := State(map["a" := InProgress("a", ["c"], {"x"}), "c" := Plain("c", {"x"}, [], {"x"})], ["c"])
  const A2 := State(map["a" := InProgress("a", ["c", "b"], {"x"}), "c" := Plain("c", {"x"}, [], {"x"}),
                        "b" := Plain("b", {}, ["a"], {"x"})], ["c", "b"])

  lemma {:induction false} VisitFromC()
    ensures Visit(STAR_CYCLE, A0, "a", FROM_C) == A1
  {
    LoadC(A0);
    var g := A0.mods["c" := Plain("c", {"x"}, [], {"x"})];
    assert g["a" := g["a"]] == g;
    assert {} + ({"x"} - {DEFAULT}) == {"x"} by { assert "x" != DEFAULT; }
    assert Step(g, g["a"], FROM_C) == InProgress("a", ["c"], {"x"});
    assert g["a" := InProgress("a", ["c"], {"x"})] == A1.mods;
  }

  lemma {:induction false} VisitFromB()
    ensures Visit(STAR_CYCLE, A1, "a", FROM_B) == A2
  {
    LoadB(A1);
    var g := A1.mods["b" := Plain("b", {}, ["a"], {"x"})];
    StepFromB(g);
    assert g["a" := InProgress("a", ["c", "b"], {"x"})] == A2.mods;
  }

  lemma {:induction false} StepFromB(g: Graph)
    requires "a" in g && "b" in g
    requires g["a"] == InProgress("a", ["c"], {"x"}) && g["b"] == Plain("b", {}, ["a"], {"x"})
    ensures Step(g, g["a"], FROM_B) == InProgress("a", ["c", "b"], {"x"})
  {
    assert g["a" := g["a"]] == g;
    assert {"x"} + ({"x"} - {DEFAULT}) == {"x"} by { assert "x" != DEFAULT; }
  }

  lemma {:induction false} VisitBody()
    ensures VisitAll(STAR_CYCLE, A0, "a", [FROM_C, FROM_B]) == A2
  {
    VisitOne(STAR_CYCLE, A0, "a", FROM_C);
    VisitFromC();
    VisitFromB();
    VisitTwo(STAR_CYCLE, A0, "a", FROM_C, FROM_B);
  }

  lemma {:induction false} LoadA()
    ensures Load(STAR_CYCLE, EMPTY, "a") == State(A2.mods["a" := Plain("a", {}, ["c", "b"], {"x"})], ["c", "b", "a"])
  {
    StartedEmpty("a", [FROM_C, FROM_B]);
    assert EMPTY.mods["a" := InProgress("a", [], {})] == A0.mods;
    VisitBody();
    assert Finish(A2.mods["a"]) == Plain("a", {}, ["c", "b"], {"x"});
    assert ["c", "b"] + ["a"] == ["c", "b", "a"];
  }

  /** Loading `a` yields exactly the graph on which resolving `x` from `a` is AMBIGUOUS. */
  lemma {:induction false} LoadBuildsCyclicStars()
    ensures Load(STAR_CYCLE, EMPTY, "a").mods == CYCLIC_STARS
    ensures Resolve(Load(STAR_CYCLE, EMPTY, "a").mods, "a", "x", {}) == Ambiguous
  {
    LoadA();
    var g := A2.mods["a" := Plain("a", {}, ["c", "b"], {"x"})];
    assert g.Keys == {"a", "b", "c"} == CYCLIC_STARS.Keys;
    assert g == CYCLIC_STARS;
    CyclicStarsResolve();
  }

  lemma {:induction false} VisitTwo(prog: Program, st: State, p: Path, s: Statement, t: Statement)
    requires p in st.mods
    ensures VisitAll(prog, st, p, [s, t]) == Visit(prog, VisitAll(prog, st, p, [s]), p, t)
  {
    assert [s, t][..1] == [s];
  }
}
