/** Loading and linking: what each import and export statement does to the module records, as functions on
    values and as the analyser object that runs them. */
module Linker {
  import opened ModuleGraph
  import opened ResolveExport

  // ---------------------------------------------------------------- source programs

  /** What looking a name up in the module's own scope finds. */
  datatype Lookup = ValueBinding | TypeBinding | Unbound

  datatype DeclKind = FunctionDecl | VariableDecl | PatternDecl | ClassDecl | InterfaceDecl | AliasDecl | EnumDecl

  datatype ImportSpec = ImportSpec(name: Name, typeOnly: bool)

  datatype ReexportSpec = ReexportSpec(name: Name, exported: Name)

  datatype LocalSpec = LocalSpec(exported: Name, bound: Lookup)

  /** The statements that matter to linking.  `from` is the resolved path, `specifier` the text in quotes. */
  datatype Statement =
    | Declaration(kind: DeclKind, name: Name, isExported: bool, isDefault: bool)
    | Import(from: Path, specifier: string, typeOnly: bool, wantsDefault: bool, named: seq<ImportSpec>)
    | ExportNamespace(from: Path, specifier: string, exported: Name)
    | ExportStar(from: Path, specifier: string)
    | ExportFrom(from: Path, specifier: string, specs: seq<ReexportSpec>)
    | ExportLocal(locals: seq<LocalSpec>)
    | ExportDefault
  {
    predicate Loads() {
      Import? || ExportNamespace? || ExportStar? || ExportFrom?
    }

    /** Whether a link error of the loaded module becomes one of the loading module. */
    predicate Poisons() {
      Loads() && !(Import? && typeOnly)
    }
  }

  /** A file: one that fails to parse, one without an analysed body (builtin, JSON, declaration file), or code. */
  datatype Source =
    | Broken(message: string)
    | Opaque(symbols: set<Name>, types: set<Name>, isJson: bool, isDeclaration: bool)
    | Code(statements: seq<Statement>, isUntypedJs: bool, isESM: bool, cjsMarkers: bool)

  type Program = map<Path, Source>

  /** The analyser's state: the module records and the order in which modules finished. */
  datatype State = State(mods: Graph, order: seq<Path>)

  // ---------------------------------------------------------------- one record

  function Bare(p: Path, src: Source): Module {
    match src
    case Broken(msg) =>
      Module(p, FileKind(true, false, false, false, true, false), {}, map[], [], {}, {}, true, msg)
    case Opaque(symbols, types, json, decl) =>
      Module(p, FileKind(false, json, decl, false, false, false), {}, map[], [], symbols, types, true, "")
    case Code(_, untyped, esm, cjs) =>
      Module(p, FileKind(true, false, false, untyped, esm, cjs), {}, map[], [], {}, {}, false, "")
  }

  function DefineValue(m: Module, name: Name): Module {
    m.(symbols := m.symbols + {name})
  }

  function DefineType(m: Module, name: Name): Module {
    m.(types := m.types + {name})
  }

  /** Records `name` as a direct export entry that is also bound as a value. */
  function DirectValue(m: Module, name: Name): Module {
    m.(direct := m.direct + {name}, symbols := m.symbols + {name})
  }

  function DirectType(m: Module, name: Name): Module {
    m.(direct := m.direct + {name}, types := m.types + {name})
  }

  /** What hoisting a declaration adds for its `export` modifier. */
  function HoistExported(m: Module, kind: DeclKind, name: Name): Module {
    match kind
    case FunctionDecl | VariableDecl => DirectValue(m, name)
    case PatternDecl => m
    case ClassDecl | InterfaceDecl | AliasDecl => DefineType(m, name)
    case EnumDecl => DefineType(DefineValue(m, name), name)
  }

  /** What hoisting a declaration adds for its `export default` modifier. */
  function HoistDefault(m: Module, kind: DeclKind): Module {
    match kind
    case FunctionDecl => DirectValue(m, DEFAULT)
    case ClassDecl => DirectType(m, DEFAULT)
    case InterfaceDecl => DefineType(m, DEFAULT)
    case VariableDecl | PatternDecl | AliasDecl | EnumDecl => m
  }

  /** The hoisting pass on one statement. */
  function Hoist(m: Module, s: Statement): (r: Module)
    ensures r.path == m.path && r.kind == m.kind
  {
    if !s.Declaration? then m
    else
      var m1 := if s.isExported then HoistExported(m, s.kind, s.name) else m;
      if s.isDefault then HoistDefault(m1, s.kind) else m1
  }

  function HoistAll(m: Module, ss: seq<Statement>): (r: Module)
    ensures r.path == m.path
  {
    if ss == [] then m else Hoist(HoistAll(m, ss[..|ss|-1]), ss[|ss|-1])
  }

  // ---------------------------------------------------------------- link errors

  /** Only the first error of a module is kept. */
  function Blame(m: Module, message: string): Module {
    if m.linkError == "" then m.(linkError := message) else m
  }

  function LinkErrorMessage(r: Resolution, name: Name, specifier: string): string {
    match r
    case Circular => "SyntaxError: Detected cycle while resolving export '" + name + "' in module '" + specifier + "'"
    case Ambiguous =>
      "SyntaxError: The requested module '" + specifier + "' contains conflicting star exports for name '" + name + "'"
    case _ =>
      "SyntaxError: The requested module '" + specifier + "' does not provide an export named '" + name + "'"
  }

  /** Whether a missing export of `t` is an error rather than CommonJS interop. */
  predicate StrictEsm(t: Module) {
    t.kind.isESM || !t.kind.cjsMarkers
  }

  predicate ChecksImports(t: Module) {
    t.kind.hasAst && !t.kind.isJson && !t.kind.isDeclaration
  }

  /** The error, or "", of the default binding of an import statement that loads `t`. */
  function DefaultImportError(g: Graph, t: Module, s: Statement): string
    requires s.Import?
  {
    var r := Resolve(g, s.from, DEFAULT, {});
    if s.wantsDefault && ChecksImports(t) && !s.typeOnly && StrictEsm(t) && !r.Found?
    then LinkErrorMessage(r, DEFAULT, s.specifier) else ""
  }

  /** The error, or "", of one named binding of an import statement that loads `t`. */
  function NamedImportError(g: Graph, t: Module, s: Statement, spec: ImportSpec): string
    requires s.Import?
  {
    var r := Resolve(g, s.from, spec.name, {});
    if ChecksImports(t) && !s.typeOnly && !spec.typeOnly
       && (r.Circular? || r.Ambiguous? || (r.NotFound? && StrictEsm(t)))
    then LinkErrorMessage(r, spec.name, s.specifier) else ""
  }

  /** The error, or "", of one named re-export from `t`; NOT_FOUND is forgiven for CommonJS interop only. */
  function ReexportError(g: Graph, t: Module, s: Statement, spec: ReexportSpec): string
    requires s.ExportFrom?
  {
    var r := Resolve(g, s.from, spec.name, {});
    var forgiven := r.NotFound? && !t.kind.isESM && t.kind.cjsMarkers && t.kind.isUntypedJs;
    if t.kind.hasAst && !t.kind.isJson && !r.Found? && !forgiven
    then LinkErrorMessage(r, spec.name, s.specifier) else ""
  }

  function BlameIf(m: Module, message: string): Module {
    if message != "" then Blame(m, message) else m
  }

  function BlameNamed(g: Graph, t: Module, m: Module, s: Statement, specs: seq<ImportSpec>): (r: Module)
    requires s.Import?
    ensures r.path == m.path
  {
    if specs == [] then m
    else
      var m1 := BlameNamed(g, t, m, s, specs[..|specs|-1]);
      BlameIf(m1, NamedImportError(g[m.path := m1], t, s, specs[|specs|-1]))
  }

  // ---------------------------------------------------------------- one statement

  /** The binding a re-export copies from the export table of `t`. */
  function CopyBinding(m: Module, t: Module, name: Name, exported: Name): Module {
    if name in t.symbols then DefineValue(m, exported)
    else if name in t.types then DefineType(m, exported)
    else m
  }

  /** `export { spec.name as spec.exported } from ...`: the entry is recorded first, then resolved. */
  function Reexport(g: Graph, m: Module, s: Statement, spec: ReexportSpec): Module
    requires s.ExportFrom? && s.from in g
  {
    var t := g[s.from];
    var m1 := m.(indirect := m.indirect[spec.exported := (t.path, spec.name)]);
    var h := g[m.path := m1];
    var err := ReexportError(h, h[s.from], s, spec);
    if err != "" then Blame(m1, err) else CopyBinding(m1, h[s.from], spec.name, spec.exported)
  }

  function ReexportAll(g: Graph, m: Module, s: Statement, specs: seq<ReexportSpec>): (r: Module)
    requires s.ExportFrom? && s.from in g
    ensures r.path == m.path
  {
    if specs == [] then m
    else
      var m1 := ReexportAll(g, m, s, specs[..|specs|-1]);
      Reexport(g[m.path := m1], m1, s, specs[|specs|-1])
  }

  function ExportLocals(m: Module, locals: seq<LocalSpec>): (r: Module)
    ensures r.path == m.path
  {
    if locals == [] then m
    else
      var spec := locals[|locals|-1];
      var m1 := ExportLocals(m, locals[..|locals|-1]);
      match spec.bound
      case ValueBinding => DirectValue(m1, spec.exported)
      case TypeBinding => DirectType(m1, spec.exported)
      case Unbound => m1.(direct := m1.direct + {spec.exported})
  }

  /** The record after the passed-on error and the default binding. */
  function AfterDefault(g: Graph, m: Module, s: Statement): (r: Module)
    requires s.Import? && s.from in g
    ensures r.path == m.path
  {
    var m1 := if s.typeOnly then m else BlameIf(m, g[s.from].linkError);
    BlameIf(m1, DefaultImportError(g[m.path := m1], g[s.from], s))
  }

  /** `import ... from`: the loaded module's error first, then the default binding, then the named ones. */
  function ImportStep(g: Graph, m: Module, s: Statement): (r: Module)
    requires s.Import? && s.from in g
    ensures r.path == m.path
  {
    var m2 := AfterDefault(g, m, s);
    BlameNamed(g[m.path := m2], g[s.from], m2, s, s.named)
  }

  /** `export * from`: every name but `default` is copied eagerly, and the source is recorded. */
  function CopyStar(m: Module, t: Module): Module {
    m.(stars := m.stars + [t.path],
       symbols := m.symbols + (t.symbols - {DEFAULT}),
       types := m.types + (t.types - {DEFAULT}))
  }

  /** `export ... from` in its three forms. */
  function ExportFromStep(g: Graph, m: Module, s: Statement): (r: Module)
    requires (s.ExportNamespace? || s.ExportStar? || s.ExportFrom?) && s.from in g
    ensures r.path == m.path
  {
    var m1 := BlameIf(m, g[s.from].linkError);
    match s
    case ExportNamespace(_, _, exported) => DirectValue(m1, exported)
    case ExportStar(_, _) => CopyStar(m1, g[s.from])
    case ExportFrom(_, _, specs) => ReexportAll(g[m.path := m1], m1, s, specs)
  }

  /** The main pass on one statement of module `m`, once the module it names has been loaded into `g`. */
  function Step(g: Graph, m: Module, s: Statement): (r: Module)
    ensures r.path == m.path
  {
    if s.Loads() then
      var h := g[m.path := m];
      if s.from !in h then m
      else if s.Import? then ImportStep(h, m, s)
      else ExportFromStep(h, m, s)
    else if s.ExportLocal? then ExportLocals(m, s.locals)
    else if s.ExportDefault? then DirectValue(m, DEFAULT)
    else if s.kind.PatternDecl? then
      if s.isExported then DirectValue(m, s.name) else m
    else Hoist(m, s)
  }

  /** What `analyzeModule` adds once the body is analysed: the CommonJS default and the `analyzed` mark. */
  function Finish(m: Module): Module {
    var m1 := if !m.kind.isESM && m.kind.cjsMarkers && DEFAULT !in m.symbols then DefineValue(m, DEFAULT) else m;
    m1.(analyzed := true)
  }

  // ---------------------------------------------------------------- loading

  /** Loads `p` once.  Records that were there before, finished or in progress, stay as they were. */
  function Load(prog: Program, st: State, p: Path): (r: State)
    ensures st.mods.Keys <= r.mods.Keys
    ensures forall q :: q in st.mods ==> r.mods[q] == st.mods[q]
    ensures p in prog ==> p in r.mods
    decreases prog.Keys - st.mods.Keys, 0
  {
    if p in st.mods || p !in prog then st
    else
      var started := st.(mods := st.mods[p := HoistAll(Bare(p, prog[p]), Body(prog[p]))]);
      if !prog[p].Code? then
        started.(order := if prog[p].Broken? then st.order + [p] else st.order)
      else
        assert prog.Keys - started.mods.Keys < prog.Keys - st.mods.Keys by {
          assert p in prog.Keys - st.mods.Keys;
        }
        var done := VisitAll(prog, started, p, Body(prog[p]));
        State(done.mods[p := Finish(done.mods[p])], done.order + [p])
  }

  function Body(src: Source): seq<Statement> {
    if src.Code? then src.statements else []
  }

  function VisitAll(prog: Program, st: State, p: Path, ss: seq<Statement>): (r: State)
    requires p in st.mods
    ensures st.mods.Keys <= r.mods.Keys
    ensures forall q :: q in st.mods && q != p ==> r.mods[q] == st.mods[q]
    ensures r.mods[p].path == st.mods[p].path
    decreases prog.Keys - st.mods.Keys, |ss| + 2
  {
    if ss == [] then st
    else
      var before := VisitAll(prog, st, p, ss[..|ss|-1]);
      assert prog.Keys - before.mods.Keys <= prog.Keys - st.mods.Keys;
      Visit(prog, before, p, ss[|ss|-1])
  }

  function Visit(prog: Program, st: State, p: Path, s: Statement): (r: State)
    requires p in st.mods
    ensures st.mods.Keys <= r.mods.Keys
    ensures forall q :: q in st.mods && q != p ==> r.mods[q] == st.mods[q]
    ensures r.mods[p].path == st.mods[p].path
    decreases prog.Keys - st.mods.Keys, 1
  {
    var loaded := if s.Loads() then Load(prog, st, s.from) else st;
    loaded.(mods := loaded.mods[p := Step(loaded.mods, loaded.mods[p], s)])
  }

  const EMPTY := State(map[], [])

  /** `analyze`: the entry file is registered and analysed in place; a link error fails the compilation. */
  function AnalyzeEntry(prog: Program, entry: Path): (State, string)
    requires entry in prog && prog[entry].Code?
  {
    var started := State(map[entry := HoistAll(Bare(entry, prog[entry]), Body(prog[entry]))], []);
    var done := VisitAll(prog, started, entry, Body(prog[entry]));
    var m := done.mods[entry];
    (State(done.mods[entry := m.(analyzed := true)], done.order + [entry]), EntryReport(m.linkError))
  }

  function EntryReport(linkError: string): string {
    if linkError == "" then ""
    else if "SyntaxError: " <= linkError then linkError
    else "SyntaxError: " + linkError
  }
}
