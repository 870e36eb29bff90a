/** What a compilation without link errors promises of every binding, in terms of the export search alone. */
module LinkedBindings {
  import opened ModuleGraph
  import opened ResolveExport
  import opened ExportRoutes
  import opened Linker
  import opened LinkedGraphs
  import opened LinkErrors
  import opened ExportTables

  // ---------------------------------------------------------------- when a statement links

  /** A module a missing export of which is an error: an ES module, or one without CommonJS markers. */
  predicate Strict(t: Module) {
    t.kind.isESM || !t.kind.cjsMarkers
  }

  /** A file whose exports are checked at all. */
  predicate Checked(t: Module) {
    t.kind.hasAst && !t.kind.isJson
  }

  predicate NamedLinks(g: Graph, t: Module, from: Path, spec: ImportSpec) {
    var r := Resolve(g, from, spec.name, {});
    spec.typeOnly || r.Found? || (r.NotFound? && !Strict(t))
  }

  predicate DefaultLinks(g: Graph, t: Module, from: Path, wanted: bool) {
    wanted && Strict(t) ==> Resolve(g, from, DEFAULT, {}).Found?
  }

  /** Only plain JavaScript with CommonJS markers is forgiven a missing name. */
  predicate ReexportLinks(g: Graph, t: Module, from: Path, spec: ReexportSpec) {
    var r := Resolve(g, from, spec.name, {});
    r.Found? || (r.NotFound? && !Strict(t) && t.kind.isUntypedJs)
  }

  /** Every binding of the statement links: each value imported by name or as the default, and each name re-exported. */
  predicate StatementLinks(g: Graph, s: Statement) {
    s.Loads() && s.from in g ==>
      var t := g[s.from];
      match s
      case Import(from, _, typeOnly, wantsDefault, named) =>
        typeOnly || !Checked(t) || t.kind.isDeclaration
        || (DefaultLinks(g, t, from, wantsDefault) && forall i :: 0 <= i < |named| ==> NamedLinks(g, t, from, named[i]))
      case ExportFrom(from, _, specs) =>
        !Checked(t) || forall i :: 0 <= i < |specs| ==> ReexportLinks(g, t, from, specs[i])
      case _ => true
  }

  lemma {:induction false} NamedErrorsIff(g: Graph, t: Module, s: Statement, specs: seq<ImportSpec>)
    requires s.Import? && !s.typeOnly && Checked(t) && !t.kind.isDeclaration
    ensures First(NamedErrors(g, t, s, specs)) == "" <==>
            forall i :: 0 <= i < |specs| ==> NamedLinks(g, t, s.from, specs[i])
    decreases |specs|
  {
    if specs != [] {
      var front, last := specs[..|specs|-1], specs[|specs|-1];
      NamedErrorsIff(g, t, s, front);
      FirstOfTwo(NamedErrors(g, t, s, front), [NamedImportError(g, t, s, last)]);
      OneError(NamedImportError(g, t, s, last));
      assert forall i :: 0 <= i < |front| ==> specs[i] == front[i];
      assert NamedImportError(g, t, s, last) == "" <==> NamedLinks(g, t, s.from, last);
    }
  }

  lemma {:induction false} OneError(message: string)
    ensures First([message]) == message
  {
    assert [message][1..] == [];
  }

  lemma {:induction false} NothingChecked(g: Graph, t: Module, s: Statement, specs: seq<ImportSpec>)
    requires s.Import? && (s.typeOnly || !Checked(t) || t.kind.isDeclaration)
    ensures First(NamedErrors(g, t, s, specs)) == "" && DefaultImportError(g, t, s) == ""
    decreases |specs|
  {
    if specs != [] {
      NothingChecked(g, t, s, specs[..|specs|-1]);
      var last := NamedImportError(g, t, s, specs[|specs|-1]);
      FirstOfTwo(NamedErrors(g, t, s, specs[..|specs|-1]), [last]);
      OneError(last);
    }
  }

  lemma {:induction false} OneReexportIff(g: Graph, t: Module, s: Statement, spec: ReexportSpec)
    requires s.ExportFrom?
    ensures ReexportError(g, t, s, spec) == "" <==> !Checked(t) || ReexportLinks(g, t, s.from, spec)
  {}

  lemma {:induction false} OneMoreError(messages: seq<string>, message: string)
    ensures First(messages + [message]) == "" <==> First(messages) == "" && message == ""
  {
    FirstOfTwo(messages, [message]);
    OneError(message);
  }

  lemma {:induction false} ReexportErrorsIff(g: Graph, t: Module, s: Statement, specs: seq<ReexportSpec>)
    requires s.ExportFrom?
    ensures First(ReexportErrors(g, t, s, specs)) == "" <==>
            !Checked(t) || forall i :: 0 <= i < |specs| ==> ReexportLinks(g, t, s.from, specs[i])
    decreases |specs|
  {
    if specs != [] {
      var front, last := specs[..|specs|-1], specs[|specs|-1];
      ReexportErrorsIff(g, t, s, front);
      OneMoreError(ReexportErrors(g, t, s, front), ReexportError(g, t, s, last));
      OneReexportIff(g, t, s, last);
      assert forall i :: 0 <= i < |front| ==> specs[i] == front[i];
    }
  }

  /** A statement has no failed binding exactly when all of them link. */
  lemma {:induction false} ErrorsIff(g: Graph, s: Statement)
    ensures First(OwnErrors(g, s)) == "" <==> StatementLinks(g, s)
  {
    if s.Loads() && s.from in g {
      var t := g[s.from];
      if s.Import? {
        var d := DefaultImportError(g, t, s);
        FirstOfTwo([d], NamedErrors(g, t, s, s.named));
        OneError(d);
        if s.typeOnly || !Checked(t) || t.kind.isDeclaration {
          NothingChecked(g, t, s, s.named);
        } else {
          NamedErrorsIff(g, t, s, s.named);
          assert d == "" <==> DefaultLinks(g, t, s.from, s.wantsDefault);
        }
      } else if s.ExportFrom? {
        ReexportErrorsIff(g, t, s, s.specs);
      }
    }
  }

  // ---------------------------------------------------------------- whole programs

  /** The file parses and every binding of its statements links. */
  ghost predicate FileLinks(prog: Program, g: Graph, q: Path) {
    && (q in prog && prog[q].Broken? ==> prog[q].message == "")
    && (q in prog ==> forall i :: 0 <= i < |Body(prog[q])| ==> StatementLinks(g, Body(prog[q])[i]))
  }

  lemma {:induction false} FileLinksIff(prog: Program, g: Graph, q: Path)
    ensures FileLinks(prog, g, q) <==> !FailsItself(prog, g, q)
  {
    if FailsItself(prog, g, q) {
      if prog[q].Code? {
        var i :| 0 <= i < |Body(prog[q])| && First(OwnErrors(g, Body(prog[q])[i])) != "";
        ErrorsIff(g, Body(prog[q])[i]);
      }
    } else if q in prog {
      forall i | 0 <= i < |Body(prog[q])|
        ensures StatementLinks(g, Body(prog[q])[i])
      {
        ErrorsIff(g, Body(prog[q])[i]);
      }
    }
  }

  /** An acyclic program compiles without a link error if and only if every file reached by value imports and re-exports
      parses, and each of their bindings is FOUND, or is one that CommonJS interop forgives. */
  lemma {:induction false} CleanIffAllLink(prog: Program, rank: Path -> nat, entry: Path)
    requires Acyclic(prog, rank) && entry in prog && prog[entry].Code?
    ensures var g := Load(prog, EMPTY, entry).mods;
            AnalyzeEntry(prog, entry).1 == "" <==>
            forall q :: PoisonReaches(prog, g, rank, entry, q) ==> FileLinks(prog, g, q)
  {
    LinkErrorsReachEntry(prog, rank, entry);
    var g := Load(prog, EMPTY, entry).mods;
    forall q
      ensures FileLinks(prog, g, q) <==> !FailsItself(prog, g, q)
    {
      FileLinksIff(prog, g, q);
    }
  }

  /** So in a program that compiles, a value imported by name from a checked ES module has a declaring file in view, the
      one the search reports. */
  lemma {:induction false} ImportIsDeclared(prog: Program, rank: Path -> nat, entry: Path, q: Path, i: nat, j: nat)
    requires Acyclic(prog, rank) && AllLocalsBound(prog) && "" !in prog && entry in prog && prog[entry].Code?
    requires var g := Load(prog, EMPTY, entry).mods;
             && AnalyzeEntry(prog, entry).1 == "" && PoisonReaches(prog, g, rank, entry, q) && q in prog
             && i < |Body(prog[q])| && ReexportsResolve(g)
             && var s := Body(prog[q])[i];
                && s.Import? && !s.typeOnly && s.from in g && j < |s.named| && !s.named[j].typeOnly
                && Checked(g[s.from]) && !g[s.from].kind.isDeclaration && Strict(g[s.from])
                && AtMostOneVisible(g, OwnKeys(prog, g), (s.from, s.named[j].name))
    ensures var g, s := Load(prog, EMPTY, entry).mods, Body(prog[q])[i];
            var r := Resolve(g, s.from, s.named[j].name, {});
            r.Found? && Visible(g, OwnKeys(prog, g), (s.from, s.named[j].name), r.definer)
  {
    var g, s := Load(prog, EMPTY, entry).mods, Body(prog[q])[i];
    CleanIffAllLink(prog, rank, entry);
    assert FileLinks(prog, g, q) && StatementLinks(g, s);
    assert NamedLinks(g, g[s.from], s.from, s.named[j]);
    LoadFinishes(prog, rank, entry);
    LinkedResolution(prog, g, rank, s.from, s.named[j].name);
  }

  /** The report is the entry's error, with one prefix. */
  lemma {:induction false} ReportIs(prog: Program, entry: Path)
    requires entry in prog && prog[entry].Code?
    ensures var (st, report) := AnalyzeEntry(prog, entry);
            entry in st.mods &&
            var e := st.mods[entry].linkError;
            && (report == "" <==> e == "")
            && (report != "" ==> "SyntaxError: " <= report && (report == e || report == "SyntaxError: " + e))
            && ("SyntaxError: " <= e ==> report == e)
  {}
}
