/** The module records the semantic analysis keeps, and the graph they form. */
module ModuleGraph {

  type Path = string
  type Name = string

  /** One (module path, export name) query. */
  type Key = (Path, Name)

  const DEFAULT: Name := "default"

  /** What kind of file a module is; fixed when it is loaded. */
  datatype FileKind = FileKind(
    hasAst: bool,
    isJson: bool,
    isDeclaration: bool,
    isUntypedJs: bool,
    isESM: bool,
    cjsMarkers: bool)

  /** The fields of a module record that linking reads or writes.  `symbols` and `types` are the names
      bound in the value half and the type half of the module's export table. */
  datatype Module = Module(
    path: Path,
    kind: FileKind,
    direct: set<Name>,
    indirect: map<Name, Key>,
    stars: seq<Path>,
    symbols: set<Name>,
    types: set<Name>,
    analyzed: bool,
    linkError: string)
  {
    /** Whether either half of the export table binds `name`. */
    predicate Exports(name: Name) {
      name in symbols || name in types
    }
  }

  type Graph = map<Path, Module>

  /** Every module is filed under its own path, and no path is empty. */
  ghost predicate WellKeyed(g: Graph) {
    forall p :: p in g ==> g[p].path == p && p != ""
  }
}
