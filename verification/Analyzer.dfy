/** The analyser object: module table, finishing order and current module, updated statement by statement. */
module LinkingAnalyzer {
  import opened ModuleGraph
  import opened ResolveExport
  import opened Linker

  class Analyzer {
    const prog: Program
    var modules: Graph
    var moduleOrder: seq<Path>
    var currentModule: Path

    ghost function Now(): State
      reads this
    {
      State(modules, moduleOrder)
    }

    constructor (prog: Program)
      ensures this.prog == prog && Now() == EMPTY
    {
      this.prog := prog;
      modules, moduleOrder, currentModule := map[], [], "";
    }

    /** `loadModule`: cached, registered before its body is analysed, and the caller's context restored. */
    method LoadModule(p: Path)
      modifies this
      ensures Now() == Load(prog, old(Now()), p)
      ensures currentModule == old(currentModule)
      decreases prog.Keys - modules.Keys, 0
    {
      if p in modules || p !in prog { return; }
      var src := prog[p];
      modules := modules[p := Bare(p, src)];
      if src.Broken? {
        moduleOrder := moduleOrder + [p];
      } else if src.Code? {
        assert prog.Keys - modules.Keys < prog.Keys - old(modules.Keys) by {
          assert p in prog.Keys - old(modules.Keys);
        }
        ghost var hoisted := HoistAll(Bare(p, src), src.statements);
        assert modules[p := hoisted] == old(modules)[p := hoisted];
        AnalyzeModule(p, src);
      }
    }

    /** The hoisting pass of `visitProgram`. */
    method HoistDeclarations(body: seq<Statement>)
      requires currentModule in modules
      modifies this`modules
      ensures modules == old(modules)[currentModule := HoistAll(old(modules)[currentModule], body)]
    {
      ghost var m := modules[currentModule];
      for i := 0 to |body|
        invariant modules == old(modules)[currentModule := HoistAll(m, body[..i])]
      {
        assert body[..i+1][..i] == body[..i];
        modules := modules[currentModule := Hoist(modules[currentModule], body[i])];
      }
      assert body[..|body|] == body;
    }

    /** `visitProgram` for the current module: the hoisting pass, then the statements in order. */
    method VisitProgram(body: seq<Statement>)
      requires currentModule in modules && modules[currentModule].path == currentModule
      modifies this
      ensures currentModule == old(currentModule) && currentModule in modules
      ensures var p := old(currentModule);
              var start := old(Now()).(mods := old(modules)[p := HoistAll(old(modules)[p], body)]);
              Now() == VisitAll(prog, start, p, body)
      decreases prog.Keys - modules.Keys, |body| + 3
    {
      var p := currentModule;
      HoistDeclarations(body);
      ghost var start := Now();
      for i := 0 to |body|
        invariant p in modules && start.mods.Keys <= modules.Keys
        invariant Now() == VisitAll(prog, start, p, body[..i]) && currentModule == p
        invariant modules[p].path == p
      {
        assert body[..i+1][..i] == body[..i];
        assert prog.Keys - modules.Keys <= prog.Keys - old(modules.Keys);
        VisitStatement(body[i]);
      }
      assert body[..|body|] == body;
    }

    method AnalyzeModule(p: Path, src: Source)
      requires src.Code? && p in modules && modules[p] == Bare(p, src)
      modifies this
      ensures var start := old(Now()).(mods := old(modules)[p := HoistAll(Bare(p, src), src.statements)]);
              var done := VisitAll(prog, start, p, src.statements);
              Now() == State(done.mods[p := Finish(done.mods[p])], done.order + [p])
      ensures currentModule == old(currentModule)
      decreases prog.Keys - modules.Keys, |src.statements| + 4
    {
      var oldModule := currentModule;
      currentModule := p;
      VisitProgram(src.statements);
      var m := modules[p];
      if !m.kind.isESM && m.kind.cjsMarkers && DEFAULT !in m.symbols {
        m := DefineValue(m, DEFAULT);
      }
      modules := modules[p := m.(analyzed := true)];
      moduleOrder := moduleOrder + [p];
      currentModule := oldModule;
    }

    /** `analyze`: the entry file in place; `report` is the error that fails the compilation, or "". */
    method Analyze(entry: Path) returns (report: string)
      requires Now() == EMPTY && entry in prog && prog[entry].Code?
      modifies this
      ensures (Now(), report) == AnalyzeEntry(prog, entry)
    {
      modules := modules[entry := Bare(entry, prog[entry])];
      currentModule := entry;
      ghost var hoisted := HoistAll(Bare(entry, prog[entry]), prog[entry].statements);
      assert modules[entry := hoisted] == map[entry := hoisted];
      VisitProgram(prog[entry].statements);
      var m := modules[entry];
      report := "";
      if m.linkError != "" {
        report := if "SyntaxError: " <= m.linkError then m.linkError else "SyntaxError: " + m.linkError;
      }
      modules := modules[entry := m.(analyzed := true)];
      moduleOrder := moduleOrder + [entry];
    }

    method VisitStatement(s: Statement)
      requires currentModule in modules && modules[currentModule].path == currentModule
      modifies this
      ensures currentModule == old(currentModule)
      ensures Now() == Visit(prog, old(Now()), old(currentModule), s)
      decreases prog.Keys - modules.Keys, 1
    {
      if s.Loads() {
        LoadModule(s.from);
        if s.from in modules {
          assert modules[currentModule := modules[currentModule]] == modules;
          if s.Import? { VisitImportDeclaration(s); } else { VisitExportFrom(s); }
        } else {
          assert modules == modules[currentModule := modules[currentModule]];
        }
      } else {
        modules := modules[currentModule := Step(modules, modules[currentModule], s)];
      }
    }

    /** Sets the current module's link error unless it already has one. */
    method KeepFirstError(message: string)
      requires currentModule in modules
      modifies this`modules
      ensures modules == old(modules)[currentModule := BlameIf(old(modules)[currentModule], message)]
    {
      var m := modules[currentModule];
      if message != "" && m.linkError == "" {
        modules := modules[currentModule := m.(linkError := message)];
      }
    }

    method VisitImportDeclaration(s: Statement)
      requires s.Import? && s.from in modules
      requires currentModule in modules && modules[currentModule].path == currentModule
      modifies this`modules
      ensures modules == old(modules)[currentModule := ImportStep(old(modules), old(modules)[currentModule], s)]
    {
      var me := currentModule;
      ghost var g0 := modules;
      var t := modules[s.from];
      VisitDefaultImport(t, s);
      ghost var m2 := modules[me];
      assert modules == g0[me := m2] && m2 == AfterDefault(g0, g0[me], s);
      VisitNamedImports(t, s);
      assert g0[me := m2][me := modules[me]] == g0[me := modules[me]];
    }

    /** The passed-on error, then the default binding. */
    method VisitDefaultImport(t: Module, s: Statement)
      requires s.Import? && s.from in modules && t == modules[s.from]
      requires currentModule in modules && modules[currentModule].path == currentModule
      modifies this`modules
      ensures modules == old(modules)[currentModule := AfterDefault(old(modules), old(modules)[currentModule], s)]
    {
      var me := currentModule;
      ghost var g0 := modules;
      if !s.typeOnly { KeepFirstError(t.linkError); }
      ghost var m1 := modules[me];
      ghost var err := DefaultImportError(modules, t, s);
      assert modules == g0[me := m1];
      if s.wantsDefault && ChecksImports(t) && !s.typeOnly && StrictEsm(t) {
        var r, _ := ResolveModuleExport(modules, s.from, DEFAULT, {});
        assert err == if r.Found? then "" else LinkErrorMessage(r, DEFAULT, s.specifier);
        if !r.Found? { KeepFirstError(LinkErrorMessage(r, DEFAULT, s.specifier)); }
      } else {
        assert err == "";
      }
      assert modules[me] == BlameIf(m1, err);
      assert modules == g0[me := modules[me]];
    }

    method VisitNamedImports(t: Module, s: Statement)
      requires s.Import?
      requires currentModule in modules && modules[currentModule].path == currentModule
      modifies this`modules
      ensures var m := old(modules)[currentModule];
              modules == old(modules)[currentModule := BlameNamed(old(modules), t, m, s, s.named)]
    {
      var me := currentModule;
      ghost var g, m := modules, modules[me];
      ghost var done := m;
      assert g[me := m] == g;
      for i := 0 to |s.named|
        invariant done == BlameNamed(g, t, m, s, s.named[..i]) && done.path == me
        invariant modules == g[me := done]
      {
        BlameNamedStep(g, t, m, s, i);
        VisitNamedImport(t, s, s.named[i]);
        done := modules[me];
        assert modules == g[me := done];
      }
      assert s.named[..|s.named|] == s.named;
    }

    method VisitNamedImport(t: Module, s: Statement, spec: ImportSpec)
      requires s.Import? && currentModule in modules
      modifies this`modules
      ensures var m := old(modules)[currentModule];
              modules == old(modules)[currentModule := BlameIf(m, NamedImportError(old(modules), t, s, spec))]
    {
      if ChecksImports(t) && !s.typeOnly && !spec.typeOnly {
        var r, _ := ResolveModuleExport(modules, s.from, spec.name, {});
        if r.Circular? || r.Ambiguous? || (r.NotFound? && StrictEsm(t)) {
          KeepFirstError(LinkErrorMessage(r, spec.name, s.specifier));
        }
      }
    }

    method VisitExportFrom(s: Statement)
      requires (s.ExportNamespace? || s.ExportStar? || s.ExportFrom?) && s.from in modules
      requires currentModule in modules && modules[currentModule].path == currentModule
      modifies this`modules
      ensures modules == old(modules)[currentModule := ExportFromStep(old(modules), old(modules)[currentModule], s)]
    {
      var me := currentModule;
      ghost var g0 := modules;
      var t := modules[s.from];
      KeepFirstError(t.linkError);
      ghost var m1 := modules[me];
      assert modules == g0[me := m1];
      if s.ExportNamespace? {
        modules := modules[me := DirectValue(modules[me], s.exported)];
      } else if s.ExportStar? {
        modules := modules[me := CopyStar(modules[me], t)];
      } else {
        VisitReexports(s);
      }
    }

    method VisitReexports(s: Statement)
      requires s.ExportFrom? && s.from in modules
      requires currentModule in modules && modules[currentModule].path == currentModule
      modifies this`modules
      ensures var m := old(modules)[currentModule];
              modules == old(modules)[currentModule := ReexportAll(old(modules), m, s, s.specs)]
    {
      var me := currentModule;
      ghost var g, m := modules, modules[me];
      ghost var done := m;
      assert g[me := m] == g;
      for i := 0 to |s.specs|
        invariant done == ReexportAll(g, m, s, s.specs[..i]) && done.path == me
        invariant modules == g[me := done]
      {
        ReexportAllStep(g, m, s, i);
        VisitReexport(s, s.specs[i]);
        done := modules[me];
        assert modules == g[me := done];
      }
      assert s.specs[..|s.specs|] == s.specs;
    }

    method VisitReexport(s: Statement, spec: ReexportSpec)
      requires s.ExportFrom? && s.from in modules
      requires currentModule in modules && modules[currentModule].path == currentModule
      modifies this`modules
      ensures modules == old(modules)[currentModule := Reexport(old(modules), old(modules)[currentModule], s, spec)]
    {
      var me := currentModule;
      var m1 := modules[me].(indirect := modules[me].indirect[spec.exported := (modules[s.from].path, spec.name)]);
      modules := modules[me := m1];
      var t := modules[s.from];
      ghost var err := ReexportError(modules, t, s, spec);
      if t.kind.hasAst && !t.kind.isJson {
        var r, _ := ResolveModuleExport(modules, s.from, spec.name, {});
        if !r.Found? && !(r.NotFound? && !t.kind.isESM && t.kind.cjsMarkers && t.kind.isUntypedJs) {
          assert err == LinkErrorMessage(r, spec.name, s.specifier) != "";
          KeepFirstError(LinkErrorMessage(r, spec.name, s.specifier));
          return;
        }
      }
      assert err == "";
      modules := modules[me := CopyBinding(m1, t, spec.name, spec.exported)];
    }
  }

  lemma {:induction false} BlameNamedStep(g: Graph, t: Module, m: Module, s: Statement, i: nat)
    requires s.Import? && i < |s.named|
    ensures var done := BlameNamed(g, t, m, s, s.named[..i]);
            BlameNamed(g, t, m, s, s.named[..i+1]) ==
            BlameIf(done, NamedImportError(g[m.path := done], t, s, s.named[i]))
  {
    assert s.named[..i+1][..i] == s.named[..i];
  }

  lemma {:induction false} ReexportAllStep(g: Graph, m: Module, s: Statement, i: nat)
    requires s.ExportFrom? && s.from in g && i < |s.specs|
    ensures var done := ReexportAll(g, m, s, s.specs[..i]);
            ReexportAll(g, m, s, s.specs[..i+1]) == Reexport(g[m.path := done], done, s, s.specs[i])
  {
    assert s.specs[..i+1][..i] == s.specs[..i];
  }
}
