/** Link errors on arbitrary programs, with import cycles: when the entry reports that some module failed. */
module CyclicLinkErrors {
  import opened ModuleGraph
  import opened ResolveExport
  import opened Linker
  import opened LinkErrors
  import opened CyclicImports

  ghost predicate Failed(g: Graph, p: Path) {
    p in g && g[p].linkError != ""
  }

  /** It loads a module and does not pass on its error. */
  predicate TypesOnly(s: Statement) {
    s.Loads() && !s.Poisons()
  }

  /** None of the statements passes on the error of `q`. */
  predicate NonePasses(ss: seq<Statement>, q: Path) {
    forall j :: 0 <= j < |ss| && ss[j].Poisons() ==> ss[j].from != q
  }

  /** Statement `i` of file `p` imports a failing module, and the file, for want of any other import of that module
      but for its types, does not fail. */
  ghost predicate Hides(prog: Program, g: Graph, p: Path, i: nat) {
    && p in prog && i < |Body(prog[p])|
    && TypesOnly(Body(prog[p])[i]) && NonePasses(Body(prog[p]), Body(prog[p])[i].from)
    && p in g && !Failed(g, p) && Failed(g, Body(prog[p])[i].from)
  }

  // ---------------------------------------------------------------- one statement

  lemma {:induction false} NamedKeepError(g: Graph, t: Module, m: Module, s: Statement, specs: seq<ImportSpec>)
    requires s.Import? && m.linkError != ""
    ensures BlameNamed(g, t, m, s, specs).linkError == m.linkError
    decreases |specs|
  {
    if specs != [] { NamedKeepError(g, t, m, s, specs[..|specs|-1]); }
  }

  lemma {:induction false} ReexportsKeepError(g: Graph, m: Module, s: Statement, specs: seq<ReexportSpec>)
    requires s.ExportFrom? && s.from in g && m.linkError != ""
    ensures ReexportAll(g, m, s, specs).linkError == m.linkError
    decreases |specs|
  {
    if specs != [] { ReexportsKeepError(g, m, s, specs[..|specs|-1]); }
  }

  /** A statement keeps the error its module has, and gives it that of the module it loads, unless it imports types. */
  lemma {:induction false} StepFails(g: Graph, m: Module, s: Statement)
    ensures m.linkError != "" ==> Step(g, m, s).linkError == m.linkError
    ensures s.Poisons() && m.path != s.from && Failed(g, s.from) && m.linkError == "" ==>
              Step(g, m, s).linkError == g[s.from].linkError
  {
    var h := g[m.path := m];
    if s.Loads() && s.from in h {
      if s.Import? {
        var m2 := AfterDefault(h, m, s);
        if m2.linkError != "" { NamedKeepError(h[m.path := m2], h[s.from], m2, s, s.named); }
      } else {
        var m1 := BlameIf(m, h[s.from].linkError);
        if s.ExportFrom? && m1.linkError != "" { ReexportsKeepError(h[m.path := m1], m1, s, s.specs); }
      }
    } else if s.ExportLocal? {
      LocalsKeepError(m, s.locals);
    }
  }

  // ---------------------------------------------------------------- what a load leaves behind

  /** Among the modules added between `g` and `h` one hides the failure of another. */
  ghost predicate HiddenSince(prog: Program, g: Graph, h: Graph) {
    exists q, i: nat :: q !in g && Hides(prog, h, q, i)
  }

  ghost predicate FailedSince(g: Graph, h: Graph) {
    exists q :: q !in g && Failed(h, q)
  }

  /** One of the statements of `p` so far has added a failing module for its types, and none has passed the error on. */
  ghost predicate PendingAt(g: Graph, h: Graph, ss: seq<Statement>, i: nat) {
    && i < |ss| && TypesOnly(ss[i]) && NonePasses(ss, ss[i].from)
    && ss[i].from !in g && Failed(h, ss[i].from)
  }

  ghost predicate Pending(g: Graph, h: Graph, ss: seq<Statement>) {
    exists i: nat :: PendingAt(g, h, ss, i)
  }

  /** A module that hides a failure does so for good once it is finished. */
  lemma {:induction false} StaysHidden(prog: Program, g: Graph, h: Graph, h': Graph, p: Path)
    requires HiddenSince(prog, g, h) && p in g
    requires h.Keys <= h'.Keys && forall q :: q in h && q != p ==> h'[q] == h[q]
    requires Failed(h, p) ==> Failed(h', p)
    ensures HiddenSince(prog, g, h')
  {
    var q, i: nat :| q !in g && Hides(prog, h, q, i);
    assert Hides(prog, h', q, i);
  }

  /** Every file a statement so far has asked for is there. */
  ghost predicate AllLoaded(prog: Program, g: Graph, ss: seq<Statement>) {
    forall i :: 0 <= i < |ss| && ss[i].Loads() && ss[i].from in prog ==> ss[i].from in g
  }

  lemma {:induction false} LoadShows(prog: Program, st: State, p: Path)
    ensures var r := Load(prog, st, p).mods;
            FailedSince(st.mods, r) ==> (p !in st.mods && Failed(r, p)) || HiddenSince(prog, st.mods, r)
    decreases prog.Keys - st.mods.Keys, 0
  {
    if p in prog && p !in st.mods {
      var started := st.(mods := st.mods[p := HoistAll(Bare(p, prog[p]), Body(prog[p]))]);
      if prog[p].Code? {
        assert p in prog.Keys - st.mods.Keys;
        BodyShows(prog, started, p, Body(prog[p]));
        var done := VisitAll(prog, started, p, Body(prog[p])).mods;
        var r := done[p := Finish(done[p])];
        if FailedSince(st.mods, r) && !Failed(r, p) {
          BodyLeaves(prog, st.mods, started.mods, done, r, p);
        }
      }
    }
  }

  /** What is pending at the end of the file of a module without an error is hidden. */
  lemma {:induction false} BodyLeaves(prog: Program, before: Graph, g: Graph, h: Graph, r: Graph, p: Path)
    requires p in prog && p !in before && g.Keys == before.Keys + {p} && p in h
    requires p in r && r == h[p := r[p]] && !Failed(r, p) && FailedSince(before, r)
    requires FailedSince(g, h) ==> HiddenSince(prog, g, h) || Pending(g, h, Body(prog[p]))
    requires !Failed(h, p)
    ensures HiddenSince(prog, before, r)
  {
    var x :| x !in before && Failed(r, x);
    assert x !in g && Failed(h, x);
    if HiddenSince(prog, g, h) {
      StaysHidden(prog, g, h, r, p);
      var q, i: nat :| q !in g && Hides(prog, r, q, i);
      assert q !in before;
    } else {
      var i: nat :| PendingAt(g, h, Body(prog[p]), i);
      assert Hides(prog, r, p, i);
    }
  }

  /** A failing module that the statements of `p` have added makes `p` fail, is hidden, or is pending. */
  lemma {:induction false} BodyShows(prog: Program, st: State, p: Path, ss: seq<Statement>)
    requires p in st.mods && st.mods[p].path == p
    ensures var r := VisitAll(prog, st, p, ss).mods;
            && AllLoaded(prog, r, ss)
            && (Failed(st.mods, p) ==> Failed(r, p))
            && (FailedSince(st.mods, r) ==> Failed(r, p) || HiddenSince(prog, st.mods, r) || Pending(st.mods, r, ss))
    decreases prog.Keys - st.mods.Keys, |ss| + 2
  {
    if ss != [] {
      var front, s := ss[..|ss|-1], ss[|ss|-1];
      BodyShows(prog, st, p, front);
      var before := VisitAll(prog, st, p, front);
      if s.Loads() { LoadShows(prog, before, s.from); }
      StatementShows(prog, st.mods, before, p, front, s);
      assert ss == front + [s];
    }
  }

  function AfterLoad(prog: Program, st: State, s: Statement): State {
    if s.Loads() then Load(prog, st, s.from) else st
  }

  lemma {:induction false} LoadedFromProgram(prog: Program, st: State, s: Statement)
    requires s.Loads()
    ensures s.from in prog ==> s.from in AfterLoad(prog, st, s).mods
    ensures s.from !in st.mods && s.from in AfterLoad(prog, st, s).mods ==> s.from in prog
  {}

  lemma {:induction false} VisitFails(prog: Program, st: State, p: Path, s: Statement)
    requires p in st.mods && st.mods[p].path == p
    ensures var h, r := AfterLoad(prog, st, s).mods, Visit(prog, st, p, s).mods;
            && st.mods.Keys <= h.Keys && r.Keys == h.Keys
            && (forall q :: q in st.mods ==> h[q] == st.mods[q])
            && (forall q :: q in h && q != p ==> r[q] == h[q])
            && (Failed(h, p) ==> Failed(r, p))
            && (s.Poisons() && s.from != p && Failed(h, s.from) ==> Failed(r, p))
  {
    var h := AfterLoad(prog, st, s).mods;
    StepFails(h, h[p], s);
  }

  /** `r` is what one more statement makes of `before`, through the load it asks for. */
  lemma {:induction false} StatementShows(prog: Program, g: Graph, before: State, p: Path, front: seq<Statement>,
                                          s: Statement)
    requires p in g && g.Keys <= before.mods.Keys && before.mods[p].path == p
    requires AllLoaded(prog, before.mods, front)
    requires FailedSince(g, before.mods) ==>
               Failed(before.mods, p) || HiddenSince(prog, g, before.mods) || Pending(g, before.mods, front)
    requires s.Loads() ==>
               var h := AfterLoad(prog, before, s).mods;
               FailedSince(before.mods, h) ==>
                 (s.from !in before.mods && Failed(h, s.from)) || HiddenSince(prog, before.mods, h)
    ensures var r := Visit(prog, before, p, s).mods;
            && AllLoaded(prog, r, front + [s])
            && (Failed(before.mods, p) ==> Failed(r, p))
            && (FailedSince(g, r) ==> Failed(r, p) || HiddenSince(prog, g, r) || Pending(g, r, front + [s]))
  {
    var h, r := AfterLoad(prog, before, s).mods, Visit(prog, before, p, s).mods;
    VisitFails(prog, before, p, s);
    if s.Loads() { LoadedFromProgram(prog, before, s); }
    assert AllLoaded(prog, r, front + [s]);
    if FailedSince(g, r) && !Failed(r, p) { UpdateShows(prog, g, before.mods, h, r, p, front, s); }
  }

  /** The same on graphs: `h` is what the load leaves of `before`, and `r` what the statement makes of `h`. */
  lemma {:induction false} UpdateShows(prog: Program, g: Graph, before: Graph, h: Graph, r: Graph, p: Path,
                                       front: seq<Statement>, s: Statement)
    requires p in g && g.Keys <= before.Keys <= h.Keys && r.Keys == h.Keys
    requires forall q :: q in before ==> h[q] == before[q]
    requires forall q :: q in h && q != p ==> r[q] == h[q]
    requires AllLoaded(prog, before, front)
    requires FailedSince(g, before) ==> Failed(before, p) || HiddenSince(prog, g, before) || Pending(g, before, front)
    requires FailedSince(before, h) ==>
               && s.Loads() && (s.from !in before && s.from in h ==> s.from in prog)
               && ((s.from !in before && Failed(h, s.from)) || HiddenSince(prog, before, h))
    requires s.Poisons() && s.from != p ==> !Failed(h, s.from)
    requires !Failed(h, p) && FailedSince(g, r) && !Failed(r, p)
    ensures HiddenSince(prog, g, r) || Pending(g, r, front + [s])
  {
    var x :| x !in g && Failed(r, x);
    if x in before {
      assert Failed(before, x);
      OlderShows(prog, g, before, h, r, p, front, s);
    } else {
      assert Failed(h, x);
      NewerShows(prog, g, before, h, r, p, front, s);
    }
  }

  /** What was hidden or pending before the statement still is, unless the statement passes an error on. */
  lemma {:induction false} OlderShows(prog: Program, g: Graph, before: Graph, h: Graph, r: Graph, p: Path,
                                      front: seq<Statement>, s: Statement)
    requires p in g && g.Keys <= before.Keys <= h.Keys && r.Keys == h.Keys
    requires forall q :: q in before ==> h[q] == before[q]
    requires forall q :: q in h && q != p ==> r[q] == h[q]
    requires HiddenSince(prog, g, before) || Pending(g, before, front)
    requires s.Poisons() && s.from != p ==> !Failed(h, s.from)
    requires !Failed(before, p) && !Failed(r, p)
    ensures HiddenSince(prog, g, r) || Pending(g, r, front + [s])
  {
    if HiddenSince(prog, g, before) {
      StaysHidden(prog, g, before, r, p);
    } else {
      var i: nat :| PendingAt(g, before, front, i);
      assert (front + [s])[i] == front[i];
      assert PendingAt(g, r, front + [s], i);
    }
  }

  /** What the statement's own load adds is hidden, or pending at the statement. */
  lemma {:induction false} NewerShows(prog: Program, g: Graph, before: Graph, h: Graph, r: Graph, p: Path,
                                      front: seq<Statement>, s: Statement)
    requires p in g && g.Keys <= before.Keys <= h.Keys && r.Keys == h.Keys
    requires forall q :: q in h && q != p ==> r[q] == h[q]
    requires AllLoaded(prog, before, front) && s.Loads()
    requires s.from !in before && s.from in h ==> s.from in prog
    requires (s.from !in before && Failed(h, s.from)) || HiddenSince(prog, before, h)
    requires s.Poisons() && s.from != p ==> !Failed(h, s.from)
    requires !Failed(h, p) && !Failed(r, p)
    ensures HiddenSince(prog, g, r) || Pending(g, r, front + [s])
  {
    if HiddenSince(prog, before, h) {
      var q, i: nat :| q !in before && Hides(prog, h, q, i);
      assert q !in g;
      StaysHidden(prog, g, h, r, p);
    } else {
      var ss := front + [s];
      assert NonePasses(ss, s.from);
      assert ss[|front|] == s && PendingAt(g, r, ss, |front|);
    }
  }

  // ---------------------------------------------------------------- the entry file

  ghost predicate SomeFailed(g: Graph) {
    exists q :: Failed(g, q)
  }

  ghost predicate SomeHidden(prog: Program, g: Graph) {
    exists q, i: nat :: Hides(prog, g, q, i)
  }

  /** On any program, cyclic or not: the link error of some module goes unreported exactly when the entry itself has
      none and some module without an error imports a failing one for its types alone. */
  lemma {:induction false} UnreportedIffHidden(prog: Program, entry: Path)
    requires entry in prog && prog[entry].Code?
    ensures var g, report := AnalyzeEntry(prog, entry).0.mods, AnalyzeEntry(prog, entry).1;
            && (report != "" <==> Failed(g, entry))
            && (SomeFailed(g) <==> report != "" || SomeHidden(prog, g))
  {
    var ss := Body(prog[entry]);
    var started := State(map[entry := HoistAll(Bare(entry, prog[entry]), ss)], []);
    var done := VisitAll(prog, started, entry, ss).mods;
    var g := AnalyzeEntry(prog, entry).0.mods;
    BodyShows(prog, started, entry, ss);
    if SomeFailed(g) && !Failed(g, entry) {
      var x :| Failed(g, x);
      assert x !in started.mods && Failed(done, x);
      BodyLeaves(prog, map[], started.mods, done, g, entry);
    }
  }

  /** Every module imported for its types is also imported, or re-exported from, by the same file for its values. */
  predicate TypesBacked(prog: Program) {
    forall p, i :: p in prog && 0 <= i < |Body(prog[p])| && TypesOnly(Body(prog[p])[i]) ==>
      !NonePasses(Body(prog[p]), Body(prog[p])[i].from)
  }

  /** In particular where nothing is imported for its types alone, the entry reports an error exactly when some loaded
      module has one, whatever the import cycles. */
  lemma {:induction false} ReportedIffSomeFails(prog: Program, entry: Path)
    requires entry in prog && prog[entry].Code? && TypesBacked(prog)
    ensures AnalyzeEntry(prog, entry).1 != "" <==> SomeFailed(AnalyzeEntry(prog, entry).0.mods)
  {
    UnreportedIffHidden(prog, entry);
  }

  // ---------------------------------------------------------------- a failure that a cycle hides

  const TYPES_OF_Q := Import("q", "./q", true, false, [])
  const IMPORT_Q := Import("q", "./q", false, false, [])
  const IMPORT_P := Import("p", "./p", false, false, [])
  const IMPORT_NOPE := Import("c", "./c", false, false, [ImportSpec("nope", false)])

  /** `e`: `import type './q'; import './p'`, `q`: `import './p'; import { nope } from './c'`, `p`: `import './q'`, and
      an empty `c`. */
  const TYPE_CYCLE: Program := map[
    "e" := EsModule([TYPES_OF_Q, IMPORT_P]),
    "q" := EsModule([IMPORT_P, IMPORT_NOPE]),
    "p" := EsModule([IMPORT_Q]),
    "c" := EsModule([])]

  function Empty(path: Path): Module {
    InProgress(path, [], {}).(analyzed := true)
  }

  const NOPE := LinkErrorMessage(NotFound, "nope", "./c")

  /** An import that binds nothing only passes the error on. */
  lemma {:induction false} BindsNothing(g: Graph, p: Path, s: Statement)
    requires p in g && g[p].path == p && s.Import? && s.named == [] && !s.wantsDefault && s.from in g
    ensures Step(g, g[p], s) == if s.typeOnly then g[p] else BlameIf(g[p], g[s.from].linkError)
  {
    assert g[p := g[p]] == g;
  }

  lemma {:induction false} LoadEmpty(st: State)
    requires "c" !in st.mods
    ensures Load(TYPE_CYCLE, st, "c") == State(st.mods["c" := Empty("c")], st.order + ["c"])
  {
    StartedEmpty("c", []);
  }

  /** `p` is loaded while `q` has not failed yet. */
  lemma {:induction false} LoadP(st: State)
    requires "p" !in st.mods && "q" in st.mods && st.mods["q"].linkError == ""
    ensures Load(TYPE_CYCLE, st, "p") == State(st.mods["p" := Empty("p")], st.order + ["p"])
  {
    StartedEmpty("p", [IMPORT_Q]);
    var st1 := st.(mods := st.mods["p" := InProgress("p", [], {})]);
    VisitOne(TYPE_CYCLE, st1, "p", IMPORT_Q);
    BindsNothing(st1.mods, "p", IMPORT_Q);
    assert st1.mods["p" := st1.mods["p"]] == st1.mods;
  }

  lemma {:induction false} NopeMissing(g: Graph)
    requires "c" in g && g["c"] == Empty("c") && "q" in g && g["q"] == InProgress("q", [], {})
    ensures Step(g, g["q"], IMPORT_NOPE) == g["q"].(linkError := NOPE)
  {
    var spec := ImportSpec("nope", false);
    assert g["q" := g["q"]] == g;
    assert StarDefiners(g, [], "nope", {} + {("c", "nope")}) == {};
    assert Resolve(g, "c", "nope", {}) == NotFound;
    assert NamedImportError(g, g["c"], IMPORT_NOPE, spec) == NOPE;
    assert [spec][..0] == [];
    assert BlameNamed(g, g["c"], g["q"], IMPORT_NOPE, [spec]) == BlameIf(g["q"], NOPE);
  }

  const E := InProgress("e", [], {})
  const Q := InProgress("q", [], {})
  const Q_FAILED := Empty("q").(linkError := NOPE)

  lemma {:induction false} QVisitsP(st: State)
    requires "p" !in st.mods && "q" in st.mods && st.mods["q"] == Q
    ensures Visit(TYPE_CYCLE, st, "q", IMPORT_P) == State(st.mods["p" := Empty("p")], st.order + ["p"])
  {
    LoadP(st);
    var g := st.mods["p" := Empty("p")];
    BindsNothing(g, "q", IMPORT_P);
    assert g["q" := Q] == g;
  }

  lemma {:induction false} QVisitsC(st: State)
    requires "c" !in st.mods && "q" in st.mods && st.mods["q"] == Q
    ensures Visit(TYPE_CYCLE, st, "q", IMPORT_NOPE)
         == State(st.mods["c" := Empty("c")]["q" := Q.(linkError := NOPE)], st.order + ["c"])
  {
    LoadEmpty(st);
    NopeMissing(st.mods["c" := Empty("c")]);
  }

  /** Loading a file of two statements. */
  lemma {:induction false} LoadTwo(prog: Program, st: State, p: Path, s: Statement, t: Statement)
    requires p in prog && p !in st.mods && prog[p] == EsModule([s, t]) && !s.Declaration? && !t.Declaration?
    ensures var started := st.(mods := st.mods[p := InProgress(p, [], {})]);
            var done := Visit(prog, Visit(prog, started, p, s), p, t);
            Load(prog, st, p) == State(done.mods[p := Finish(done.mods[p])], done.order + [p])
  {
    StartedEmpty(p, [s, t]);
    var started := st.(mods := st.mods[p := InProgress(p, [], {})]);
    VisitOne(prog, started, p, s);
    VisitTwo(prog, started, p, s, t);
  }

  lemma {:induction false} LoadQ(st: State)
    requires "q" !in st.mods && "p" !in st.mods && "c" !in st.mods
    ensures var g := Load(TYPE_CYCLE, st, "q").mods;
            && (forall x :: x in st.mods ==> x in g && g[x] == st.mods[x])
            && "q" in g && g["q"] == Q_FAILED && "p" in g && g["p"] == Empty("p")
  {
    LoadTwo(TYPE_CYCLE, st, "q", IMPORT_P, IMPORT_NOPE);
    var st0 := st.(mods := st.mods["q" := Q]);
    QVisitsP(st0);
    QVisitsC(Visit(TYPE_CYCLE, st0, "q", IMPORT_P));
    assert Finish(Q.(linkError := NOPE)) == Q_FAILED;
  }

  /** The entry stays as it was: one import does not pass the error on, and the other finds none. */
  lemma {:induction false} EVisitsBoth(st: State)
    requires st.mods.Keys == {"e"} && st.mods["e"] == E
    ensures VisitAll(TYPE_CYCLE, st, "e", [TYPES_OF_Q, IMPORT_P]) == Load(TYPE_CYCLE, st, "q")
  {
    LoadQ(st);
    var loaded := Load(TYPE_CYCLE, st, "q");
    assert loaded.mods["e" := E] == loaded.mods;
    BindsNothing(loaded.mods, "e", TYPES_OF_Q);
    BindsNothing(loaded.mods, "e", IMPORT_P);
    assert Visit(TYPE_CYCLE, st, "e", TYPES_OF_Q) == loaded;
    assert Visit(TYPE_CYCLE, loaded, "e", IMPORT_P) == loaded;
    VisitOne(TYPE_CYCLE, st, "e", TYPES_OF_Q);
    VisitTwo(TYPE_CYCLE, st, "e", TYPES_OF_Q, IMPORT_P);
  }

  lemma {:induction false} CycleReportsNothing()
    ensures var g := AnalyzeEntry(TYPE_CYCLE, "e").0.mods;
            AnalyzeEntry(TYPE_CYCLE, "e").1 == "" && Failed(g, "q") && "e" in g && !Failed(g, "e")
  {
    StartedEmpty("e", [TYPES_OF_Q, IMPORT_P]);
    var st := State(map["e" := E], []);
    LoadQ(st);
    EVisitsBoth(st);
    assert Body(TYPE_CYCLE["e"]) == [TYPES_OF_Q, IMPORT_P];
  }

  /** `q` fails and the compilation reports nothing, although `e` imports `p` and `p` imports `q` for their values: `p`
      was finished, inside the cycle, before `q` failed. */
  lemma {:induction false} CycleHidesFailure()
    ensures var g := AnalyzeEntry(TYPE_CYCLE, "e").0.mods;
            && AnalyzeEntry(TYPE_CYCLE, "e").1 == ""
            && Failed(g, "q") && Hides(TYPE_CYCLE, g, "e", 0)
    ensures IMPORT_P in Body(TYPE_CYCLE["e"]) && IMPORT_Q in Body(TYPE_CYCLE["p"])
  {
    CycleReportsNothing();
    assert Body(TYPE_CYCLE["e"])[1] == IMPORT_P;
    assert Body(TYPE_CYCLE["p"])[0] == IMPORT_Q;
  }
}
