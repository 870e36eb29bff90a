/** Three small programs and the link error each of them is reported with. */
module LinkMessages {
  import opened ModuleGraph
  import opened ResolveExport
  import opened ExportRoutes
  import opened Linker
  import opened CyclicImports
  import opened CyclicLinkErrors

  lemma {:induction false} LoadDeclaring(prog: Program, st: State, p: Path)
    requires p in prog && prog[p] == EsModule([DECLARE_X]) && p !in st.mods
    ensures Load(prog, st, p) == State(st.mods[p := Plain(p, {"x"}, [], {"x"})], st.order + [p])
  {
    var m := Bare(p, EsModule([DECLARE_X]));
    assert [DECLARE_X][..0] == [];
    assert HoistAll(m, [DECLARE_X]) == DirectValue(m, "x");
    var st1 := st.(mods := st.mods[p := DirectValue(m, "x")]);
    VisitOne(prog, st1, p, DECLARE_X);
    assert DirectValue(DirectValue(m, "x"), "x") == DirectValue(m, "x");
    assert {} + {"x"} == {"x"};
  }

  /** Analysing an entry that consists of one statement. */
  lemma {:induction false} EntryOfOne(prog: Program, p: Path, s: Statement)
    requires p in prog && prog[p] == EsModule([s]) && !s.Declaration?
    ensures var done := Visit(prog, State(map[p := InProgress(p, [], {})], []), p, s);
            AnalyzeEntry(prog, p).1 == EntryReport(done.mods[p].linkError)
  {
    StartedEmpty(p, [s]);
    VisitOne(prog, State(map[p := InProgress(p, [], {})], []), p, s);
  }

  // ---------------------------------------------------------------- the messages

  const PREFIX := "SyntaxError: "

  lemma {:induction false} PrefixKept(a: string, b: string)
    requires PREFIX <= a
    ensures PREFIX <= a + b
  {}

  lemma {:induction false} BothBegin()
    ensures PREFIX <= "SyntaxError: The requested module '"
    ensures PREFIX <= "SyntaxError: Detected cycle while resolving export '"
  {}

  /** They are reported as they are. */
  lemma {:induction false} ReportedAsIs(start: string, a: string, middle: string, b: string, end: string)
    requires PREFIX <= start
    ensures EntryReport(start + a + middle + b + end) == start + a + middle + b + end
  {
    PrefixKept(start, a);
    PrefixKept(start + a, middle);
    PrefixKept(start + a + middle, b);
    PrefixKept(start + a + middle + b, end);
  }

  // ---------------------------------------------------------------- one import of a name

  function ImportX(from: Path, specifier: string): Statement {
    Import(from, specifier, false, false, [ImportSpec("x", false)])
  }

  /** The error of a module that does nothing but import `x`. */
  lemma {:induction false} ImportFails(g: Graph, p: Path, from: Path, specifier: string)
    requires p in g && g[p].path == p && g[p].linkError == ""
    requires from in g && from != p && g[from].linkError == ""
    requires g[from].kind == FileKind(true, false, false, false, true, false)
    ensures var r := Resolve(g, from, "x", {});
            Step(g, g[p], ImportX(from, specifier)).linkError
            == if r.Found? then "" else LinkErrorMessage(r, "x", specifier)
  {
    var spec := ImportSpec("x", false);
    assert g[p := g[p]] == g;
    assert [spec][..0] == [];
    assert BlameNamed(g, g[from], g[p], ImportX(from, specifier), [spec])
        == BlameIf(g[p], NamedImportError(g, g[from], ImportX(from, specifier), spec));
  }

  // ---------------------------------------------------------------- conflicting stars

  /** `e`: `import { x } from './i'`, `i`: `export * from './a'; export * from './b'`, and both `a` and `b`:
      `export function x() {}`. */
  const CONFLICT: Program := map[
    "e" := EsModule([ImportX("i", "./i")]),
    "i" := EsModule([FROM_A, FROM_B]),
    "a" := EsModule([DECLARE_X]),
    "b" := EsModule([DECLARE_X])]

  /** One star source copied. */
  lemma {:induction false} VisitStar(prog: Program, st: State, p: Path, s: Statement)
    requires s.ExportStar? && s.from in prog && prog[s.from] == EsModule([DECLARE_X])
    requires p in st.mods && s.from !in st.mods && s.from != p
    requires st.mods[p].path == p
    ensures Visit(prog, st, p, s)
         == var m := st.mods[p].(stars := st.mods[p].stars + [s.from], symbols := st.mods[p].symbols + {"x"});
            State(st.mods[s.from := Plain(s.from, {"x"}, [], {"x"})][p := m], st.order + [s.from])
  {
    LoadDeclaring(prog, st, s.from);
    var g := st.mods[s.from := Plain(s.from, {"x"}, [], {"x"})];
    assert g[p := g[p]] == g;
    assert {"x"} - {DEFAULT} == {"x"} by { assert "x" != DEFAULT; }
    assert {} - {DEFAULT} == {} && g[p].types + {} == g[p].types;
  }

  /** `p` re-exports everything from two files that declare `x`. */
  ghost predicate TwoStars(prog: Program, p: Path, s: Statement, t: Statement) {
    && p in prog && prog[p] == EsModule([s, t]) && s.ExportStar? && t.ExportStar?
    && s.from in prog && prog[s.from] == EsModule([DECLARE_X])
    && t.from in prog && prog[t.from] == EsModule([DECLARE_X])
    && s.from != t.from && s.from != p && t.from != p
  }

  lemma {:induction false} FirstStar(prog: Program, st: State, p: Path, s: Statement)
    requires s.ExportStar? && s.from in prog && prog[s.from] == EsModule([DECLARE_X])
    requires p in st.mods && s.from !in st.mods && st.mods[p] == InProgress(p, [], {})
    ensures Visit(prog, st, p, s).mods
         == st.mods[s.from := Plain(s.from, {"x"}, [], {"x"})][p := InProgress(p, [s.from], {"x"})]
  {
    VisitStar(prog, st, p, s);
    assert [] + [s.from] == [s.from] && {} + {"x"} == {"x"};
  }

  lemma {:induction false} SecondStar(prog: Program, st: State, p: Path, first: Path, t: Statement)
    requires t.ExportStar? && t.from in prog && prog[t.from] == EsModule([DECLARE_X])
    requires p in st.mods && t.from !in st.mods && st.mods[p] == InProgress(p, [first], {"x"})
    ensures Visit(prog, st, p, t).mods
         == st.mods[t.from := Plain(t.from, {"x"}, [], {"x"})][p := InProgress(p, [first, t.from], {"x"})]
  {
    VisitStar(prog, st, p, t);
    assert [first] + [t.from] == [first, t.from] && {"x"} + {"x"} == {"x"};
  }

  lemma {:induction false} LoadTwoStars(prog: Program, st: State, p: Path, s: Statement, t: Statement)
    requires TwoStars(prog, p, s, t) && p !in st.mods && s.from !in st.mods && t.from !in st.mods
    ensures var g := Load(prog, st, p).mods;
            && (forall q :: q in st.mods ==> g[q] == st.mods[q])
            && p in g && g[p] == Plain(p, {}, [s.from, t.from], {"x"})
            && s.from in g && g[s.from] == Plain(s.from, {"x"}, [], {"x"})
            && t.from in g && g[t.from] == Plain(t.from, {"x"}, [], {"x"})
  {
    var st0 := st.(mods := st.mods[p := InProgress(p, [], {})]);
    LoadTwo(prog, st, p, s, t);
    FirstStar(prog, st0, p, s);
    SecondStar(prog, Visit(prog, st0, p, s), p, s.from, t);
  }

  lemma {:induction false} StarsConflict(g: Graph, p: Path, a: Path, b: Path)
    requires p != "" && a != "" && b != "" && p != a && p != b && a != b
    requires p in g && g[p] == Plain(p, {}, [a, b], {"x"})
    requires a in g && g[a] == Plain(a, {"x"}, [], {"x"}) && b in g && g[b] == Plain(b, {"x"}, [], {"x"})
    ensures Resolve(g, p, "x", {}) == Ambiguous
  {
    var seen := {(p, "x")};
    assert {} + seen == seen;
    assert Resolve(g, a, "x", seen) == Found(a) && Resolve(g, b, "x", seen) == Found(b);
    assert [a, b][..1] == [a] && [a][..0] == [];
    assert StarDefiners(g, [], "x", seen) == {};
    assert StarDefiners(g, [a], "x", seen) == {a};
    assert StarDefiners(g, [a, b], "x", seen) == {a, b};
    assert |{a, b}| == 2;
  }

  lemma {:induction false} ConflictFails(prog: Program, e: Path, p: Path, specifier: string, s: Statement, t: Statement)
    requires TwoStars(prog, p, s, t) && e in prog && prog[e] == EsModule([ImportX(p, specifier)])
    requires e != p && e != s.from && e != t.from && p != "" && s.from != "" && t.from != ""
    ensures AnalyzeEntry(prog, e).1 == EntryReport(LinkErrorMessage(Ambiguous, "x", specifier))
  {
    var st := State(map[e := InProgress(e, [], {})], []);
    EntryOfOne(prog, e, ImportX(p, specifier));
    LoadTwoStars(prog, st, p, s, t);
    var g := Load(prog, st, p).mods;
    StarsConflict(g, p, s.from, t.from);
    ImportFails(g, e, p, specifier);
  }

  lemma {:induction false} ConflictReported()
    ensures AnalyzeEntry(CONFLICT, "e").1 ==
              "SyntaxError: The requested module '" + "./i"
              + "' contains conflicting star exports for name '" + "x" + "'"
  {
    ConflictFails(CONFLICT, "e", "i", "./i", FROM_A, FROM_B);
    BothBegin();
    ReportedAsIs("SyntaxError: The requested module '", "./i", "' contains conflicting star exports for name '", "x",
                 "'");
  }

  // ---------------------------------------------------------------- two files that re-export from each other

  const X_AS_X := ReexportSpec("x", "x")

  function ReexportX(from: Path, specifier: string): Statement {
    ExportFrom(from, specifier, [X_AS_X])
  }

  /** `a`: `export { x } from './b'`, `b`: `export { x } from './a'`. */
  const MUTUAL: Program := map[
    "a" := EsModule([ReexportX("b", "./b")]),
    "b" := EsModule([ReexportX("a", "./a")])]

  /** What one named re-export of `x` makes of a module. */
  lemma {:induction false} ReexportOnly(g: Graph, p: Path, from: Path, specifier: string)
    requires p in g && g[p].path == p && from in g && from != p && g[from].path == from && g[from].linkError == ""
    requires g[from].kind == g[p].kind == FileKind(true, false, false, false, true, false) && g[p].linkError == ""
    requires "x" !in g[from].symbols && "x" !in g[from].types
    ensures var m := g[p].(indirect := g[p].indirect["x" := (from, "x")]);
            var r := Resolve(g[p := m], from, "x", {});
            Step(g, g[p], ReexportX(from, specifier))
            == if r.Found? then m else m.(linkError := LinkErrorMessage(r, "x", specifier))
  {
    assert g[p := g[p]] == g;
    assert [X_AS_X][..0] == [];
    assert ReexportAll(g, g[p], ReexportX(from, specifier), [X_AS_X])
        == Reexport(g, g[p], ReexportX(from, specifier), X_AS_X);
  }

  function Reexporter(p: Path, from: Path): Module {
    InProgress(p, [], {}).(indirect := map["x" := (from, "x")])
  }

  /** While `q` is in progress and has recorded nothing, the re-export from it is let pass. */
  lemma {:induction false} LoadMutual(prog: Program, st: State, p: Path, q: Path, specifier: string)
    requires p in prog && prog[p] == EsModule([ReexportX(q, specifier)]) && p !in st.mods && p != q
    requires q in st.mods && st.mods[q] == InProgress(q, [], {})
    ensures Load(prog, st, p) == State(st.mods[p := Reexporter(p, q).(analyzed := true)], st.order + [p])
  {
    StartedEmpty(p, [ReexportX(q, specifier)]);
    var st1 := st.(mods := st.mods[p := InProgress(p, [], {})]);
    VisitOne(prog, st1, p, ReexportX(q, specifier));
    ReexportOnly(st1.mods, p, q, specifier);
    var g := st1.mods[p := Reexporter(p, q)];
    assert st1.mods[p].indirect["x" := (q, "x")] == map["x" := (q, "x")];
    assert StarDefiners(g, [], "x", {} + {(q, "x")}) == {};
    assert Resolve(g, q, "x", {}) == Found(q);
  }

  lemma {:induction false} MutualFails(prog: Program, p: Path, q: Path, there: string, back: string)
    requires p in prog && prog[p] == EsModule([ReexportX(q, there)]) && p != q
    requires q in prog && prog[q] == EsModule([ReexportX(p, back)])
    ensures AnalyzeEntry(prog, p).1 == EntryReport(LinkErrorMessage(Circular, "x", there))
  {
    var st := State(map[p := InProgress(p, [], {})], []);
    EntryOfOne(prog, p, ReexportX(q, there));
    LoadMutual(prog, st, q, p, back);
    var g := Load(prog, st, q).mods;
    ReexportOnly(g, p, q, there);
    var m := g[p].(indirect := g[p].indirect["x" := (q, "x")]);
    var h := g[p := m];
    assert Resolve(h, q, "x", {} + {(q, "x")} + {(p, "x")}) == Circular;
    assert Resolve(h, p, "x", {} + {(q, "x")}) == Circular;
    assert Resolve(h, q, "x", {}) == Circular;
  }

  lemma {:induction false} CycleReported()
    ensures AnalyzeEntry(MUTUAL, "a").1 ==
              "SyntaxError: Detected cycle while resolving export '" + "x" + "' in module '" + "./b" + "'"
  {
    MutualFails(MUTUAL, "a", "b", "./b", "./a");
    BothBegin();
    ReportedAsIs("SyntaxError: Detected cycle while resolving export '", "x", "' in module '", "./b", "'");
  }

  // ---------------------------------------------------------------- a name that is not there

  /** `e`: `import { x } from './c'`, and an empty `c`. */
  const MISSING: Program := map["e" := EsModule([ImportX("c", "./c")]), "c" := EsModule([])]

  lemma {:induction false} LoadNothing(prog: Program, st: State, p: Path)
    requires p in prog && prog[p] == EsModule([]) && p !in st.mods
    ensures Load(prog, st, p) == State(st.mods[p := Empty(p)], st.order + [p])
  {
    StartedEmpty(p, []);
  }

  lemma {:induction false} MissingFails(prog: Program, e: Path, p: Path, specifier: string)
    requires e in prog && prog[e] == EsModule([ImportX(p, specifier)]) && p in prog && prog[p] == EsModule([]) && p != e
    ensures AnalyzeEntry(prog, e).1 == EntryReport(LinkErrorMessage(NotFound, "x", specifier))
  {
    var st := State(map[e := InProgress(e, [], {})], []);
    EntryOfOne(prog, e, ImportX(p, specifier));
    LoadNothing(prog, st, p);
    var g := Load(prog, st, p).mods;
    assert StarDefiners(g, [], "x", {} + {(p, "x")}) == {};
    assert Resolve(g, p, "x", {}) == NotFound;
    ImportFails(g, e, p, specifier);
  }

  lemma {:induction false} MissingReported()
    ensures AnalyzeEntry(MISSING, "e").1 ==
              "SyntaxError: The requested module '" + "./c" + "' does not provide an export named '" + "x" + "'"
  {
    MissingFails(MISSING, "e", "c", "./c");
    BothBegin();
    ReportedAsIs("SyntaxError: The requested module '", "./c", "' does not provide an export named '", "x", "'");
  }
}
