/** What a finished module record holds, read off the statements of its file. */
module RecordTables {
  import opened ModuleGraph
  import opened Linker
  import opened LinkedGraphs
  import opened Loading
  import opened LinkErrors
  import opened LinkedBindings
  import opened ExportTables

  // ---------------------------------------------------------------- what each statement contributes

  /** Declarations of values, of types, and of both. */
  predicate DeclaresValue(kind: DeclKind) {
    kind.FunctionDecl? || kind.VariableDecl? || kind.PatternDecl? || kind.EnumDecl?
  }

  predicate DeclaresType(kind: DeclKind) {
    kind.ClassDecl? || kind.InterfaceDecl? || kind.AliasDecl? || kind.EnumDecl?
  }

  /** The names of `export { .. }` that are bound in one of these ways. */
  function BoundAs(locals: seq<LocalSpec>, ways: set<Lookup>): set<Name> {
    set i | 0 <= i < |locals| && locals[i].bound in ways :: locals[i].exported
  }

  /** The names it exports directly; of the declared ones only functions and variables, and default classes. */
  function DirectOf(g: Graph, s: Statement): set<Name> {
    match s
    case Declaration(kind, name, exported, default) =>
      (if exported && DeclaresValue(kind) && !kind.EnumDecl? then {name} else {})
      + (if default && (kind.FunctionDecl? || kind.ClassDecl?) then {DEFAULT} else {})
    case ExportNamespace(from, _, exported) => if from in g then {exported} else {}
    case ExportLocal(locals) => BoundAs(locals, {ValueBinding, TypeBinding, Unbound})
    case ExportDefault => {DEFAULT}
    case Import(_, _, _, _, _) | ExportStar(_, _) | ExportFrom(_, _, _) => {}
  }

  /** A re-export that links copies the binding of that name; a value hides a type. */
  function CopiedValues(g: Graph, t: Module, from: Path, specs: seq<ReexportSpec>): set<Name> {
    set i | 0 <= i < |specs| && Copies(g, t, from, specs[i]) && specs[i].name in t.symbols :: specs[i].exported
  }

  function CopiedTypes(g: Graph, t: Module, from: Path, specs: seq<ReexportSpec>): set<Name> {
    set i | 0 <= i < |specs| && Copies(g, t, from, specs[i])
            && specs[i].name !in t.symbols && specs[i].name in t.types :: specs[i].exported
  }

  predicate Copies(g: Graph, t: Module, from: Path, spec: ReexportSpec) {
    !Checked(t) || ReexportLinks(g, t, from, spec)
  }

  /** The names it puts into the value half of the table. */
  function ValuesOf(g: Graph, s: Statement): set<Name> {
    match s
    case Declaration(kind, name, exported, default) =>
      (if exported && DeclaresValue(kind) then {name} else {})
      + (if default && kind.FunctionDecl? then {DEFAULT} else {})
    case ExportNamespace(from, _, exported) => if from in g then {exported} else {}
    case ExportStar(from, _) => if from in g then g[from].symbols - {DEFAULT} else {}
    case ExportFrom(from, _, specs) => if from in g then CopiedValues(g, g[from], from, specs) else {}
    case ExportLocal(locals) => BoundAs(locals, {ValueBinding})
    case ExportDefault => {DEFAULT}
    case Import(_, _, _, _, _) => {}
  }

  /** And into the type half. */
  function TypesOf(g: Graph, s: Statement): set<Name> {
    match s
    case Declaration(kind, name, exported, default) =>
      (if exported && DeclaresType(kind) then {name} else {})
      + (if default && (kind.ClassDecl? || kind.InterfaceDecl?) then {DEFAULT} else {})
    case ExportStar(from, _) => if from in g then g[from].types - {DEFAULT} else {}
    case ExportFrom(from, _, specs) => if from in g then CopiedTypes(g, g[from], from, specs) else {}
    case ExportLocal(locals) => BoundAs(locals, {TypeBinding})
    case ExportNamespace(_, _, _) | ExportDefault | Import(_, _, _, _, _) => {}
  }

  function StarsOf(g: Graph, s: Statement): seq<Path> {
    if s.ExportStar? && s.from in g then [s.from] else []
  }

  /** The renamed entries of a list of re-exports, a later one of the same name replacing an earlier. */
  function Renamed(from: Path, specs: seq<ReexportSpec>): map<Name, Key> {
    if specs == [] then map[]
    else
      var last := specs[|specs|-1];
      Renamed(from, specs[..|specs|-1])[last.exported := (from, last.name)]
  }

  function RenamedOf(g: Graph, s: Statement): map<Name, Key> {
    if s.ExportFrom? && s.from in g then Renamed(s.from, s.specs) else map[]
  }

  // ---------------------------------------------------------------- one statement

  /** `r` is `m` with what the statement contributes. */
  ghost predicate Adds(g: Graph, m: Module, s: Statement, r: Module) {
    && r.direct == m.direct + DirectOf(g, s)
    && r.symbols == m.symbols + ValuesOf(g, s)
    && r.types == m.types + TypesOf(g, s)
    && r.stars == m.stars + StarsOf(g, s)
    && r.indirect == m.indirect + RenamedOf(g, s)
  }

  ghost predicate SameTables(m: Module, r: Module) {
    r.direct == m.direct && r.symbols == m.symbols && r.types == m.types && r.stars == m.stars
    && r.indirect == m.indirect && r.kind == m.kind && r.path == m.path
  }

  lemma {:induction false} BlamingAddsNothing(g: Graph, t: Module, m: Module, s: Statement, specs: seq<ImportSpec>)
    requires s.Import?
    ensures SameTables(m, BlameNamed(g, t, m, s, specs))
    decreases |specs|
  {
    if specs != [] { BlamingAddsNothing(g, t, m, s, specs[..|specs|-1]); }
  }

  lemma {:induction false} LastLocal(locals: seq<LocalSpec>, ways: set<Lookup>)
    requires locals != []
    ensures var last := locals[|locals|-1];
            BoundAs(locals, ways)
            == BoundAs(locals[..|locals|-1], ways) + if last.bound in ways then {last.exported} else {}
  {
    var front, last := locals[..|locals|-1], locals[|locals|-1];
    forall n
      ensures n in BoundAs(locals, ways) <==> n in BoundAs(front, ways) || (last.bound in ways && n == last.exported)
    {
      if n in BoundAs(locals, ways) {
        var i :| 0 <= i < |locals| && locals[i].bound in ways && locals[i].exported == n;
        assert i < |front| ==> front[i] == locals[i];
      }
      if n in BoundAs(front, ways) {
        var i :| 0 <= i < |front| && front[i].bound in ways && front[i].exported == n;
        assert locals[i] == front[i];
      }
      assert last.bound in ways && n == last.exported ==> n in BoundAs(locals, ways);
    }
  }

  ghost predicate LocalsAdded(m: Module, locals: seq<LocalSpec>, r: Module) {
    && r.direct == m.direct + BoundAs(locals, {ValueBinding, TypeBinding, Unbound})
    && r.symbols == m.symbols + BoundAs(locals, {ValueBinding})
    && r.types == m.types + BoundAs(locals, {TypeBinding})
    && r.stars == m.stars && r.indirect == m.indirect
  }

  lemma {:induction false} LocalsAdd(m: Module, locals: seq<LocalSpec>)
    ensures LocalsAdded(m, locals, ExportLocals(m, locals))
    decreases |locals|
  {
    if locals != [] {
      LocalsAdd(m, locals[..|locals|-1]);
      LastLocal(locals, {ValueBinding, TypeBinding, Unbound});
      LastLocal(locals, {ValueBinding});
      LastLocal(locals, {TypeBinding});
    }
  }

  // ---------------------------------------------------------------- named re-exports

  function OneValue(g: Graph, t: Module, from: Path, spec: ReexportSpec): set<Name> {
    if Copies(g, t, from, spec) && spec.name in t.symbols then {spec.exported} else {}
  }

  function OneType(g: Graph, t: Module, from: Path, spec: ReexportSpec): set<Name> {
    if Copies(g, t, from, spec) && spec.name !in t.symbols && spec.name in t.types then {spec.exported} else {}
  }

  lemma {:induction false} LastCopied(g: Graph, t: Module, from: Path, specs: seq<ReexportSpec>)
    requires specs != []
    ensures var front, last := specs[..|specs|-1], specs[|specs|-1];
            && CopiedValues(g, t, from, specs) == CopiedValues(g, t, from, front) + OneValue(g, t, from, last)
            && CopiedTypes(g, t, from, specs) == CopiedTypes(g, t, from, front) + OneType(g, t, from, last)
  {
    var front := specs[..|specs|-1];
    assert forall i :: 0 <= i < |front| ==> specs[i] == front[i];
    assert forall i :: 0 <= i < |specs| ==> i == |front| || specs[i] == front[i];
  }

  ghost predicate ReexportsAdded(g: Graph, m: Module, from: Path, specs: seq<ReexportSpec>, r: Module)
    requires from in g
  {
    && r.direct == m.direct && r.stars == m.stars && r.path == m.path
    && r.symbols == m.symbols + CopiedValues(g, g[from], from, specs)
    && r.types == m.types + CopiedTypes(g, g[from], from, specs)
    && r.indirect == m.indirect + Renamed(from, specs)
  }

  /** One re-export; what the module itself has recorded so far does not matter to it. */
  lemma {:induction false} ReexportAddsOne(g: Graph, rank: Path -> nat, m: Module, s: Statement, spec: ReexportSpec)
    requires s.ExportFrom? && s.from in g && g[s.from].path == s.from && s.from != m.path
    requires SameBelow(g, g, rank, rank(m.path)) && rank(s.from) < rank(m.path)
    ensures var r, t := Reexport(g[m.path := m], m, s, spec), g[s.from];
            && r.direct == m.direct && r.stars == m.stars && r.path == m.path
            && r.indirect == m.indirect[spec.exported := (s.from, spec.name)]
            && r.symbols == m.symbols + OneValue(g, t, s.from, spec)
            && r.types == m.types + OneType(g, t, s.from, spec)
  {
    var m1 := m.(indirect := m.indirect[spec.exported := (s.from, spec.name)]);
    var h := g[m.path := m][m.path := m1];
    assert h == g[m.path := m1];
    UnseenFrom(g, rank, m.path, m1, s.from, spec.name);
    OneReexportIff(h, g[s.from], s, spec);
    var err := ReexportError(h, g[s.from], s, spec);
    assert err == "" <==> Copies(g, g[s.from], s.from, spec);
    CopyAdds(g, m1, g[s.from], s.from, spec, err);
  }

  lemma {:induction false} CopyAdds(g: Graph, m: Module, t: Module, from: Path, spec: ReexportSpec, err: string)
    requires err == "" <==> Copies(g, t, from, spec)
    ensures var r := if err != "" then Blame(m, err) else CopyBinding(m, t, spec.name, spec.exported);
            && r.(symbols := m.symbols, types := m.types, linkError := m.linkError) == m
            && r.symbols == m.symbols + OneValue(g, t, from, spec) && r.types == m.types + OneType(g, t, from, spec)
  {}

  lemma {:induction false} AddedThen(g: Graph, m: Module, m1: Module, r: Module, from: Path, specs: seq<ReexportSpec>)
    requires from in g && specs != [] && ReexportsAdded(g, m, from, specs[..|specs|-1], m1)
    requires var last := specs[|specs|-1];
             && r.direct == m1.direct && r.stars == m1.stars && r.path == m1.path
             && r.indirect == m1.indirect[last.exported := (from, last.name)]
             && r.symbols == m1.symbols + OneValue(g, g[from], from, last)
             && r.types == m1.types + OneType(g, g[from], from, last)
    ensures ReexportsAdded(g, m, from, specs, r)
  {
    LastCopied(g, g[from], from, specs);
  }

  lemma {:induction false} ReexportsAdd(g: Graph, rank: Path -> nat, m: Module, s: Statement, specs: seq<ReexportSpec>)
    requires s.ExportFrom? && s.from in g && g[s.from].path == s.from && s.from != m.path
    requires SameBelow(g, g, rank, rank(m.path)) && rank(s.from) < rank(m.path)
    ensures ReexportsAdded(g, m, s.from, specs, ReexportAll(g[m.path := m], m, s, specs))
    decreases |specs|
  {
    if specs == [] {
      assert m.indirect + map[] == m.indirect;
    } else {
      var last := |specs| - 1;
      ReexportsAdd(g, rank, m, s, specs[..last]);
      var m1 := ReexportAll(g[m.path := m], m, s, specs[..last]);
      assert g[m.path := m][m.path := m1] == g[m.path := m1];
      ReexportAddsOne(g, rank, m1, s, specs[last]);
      AddedThen(g, m, m1, Reexport(g[m.path := m1], m1, s, specs[last]), s.from, specs);
    }
  }

  // ---------------------------------------------------------------- any statement

  lemma {:induction false} ImportAdds(g: Graph, m: Module, s: Statement)
    requires s.Import? && s.from in g
    ensures SameTables(m, ImportStep(g, m, s))
  {
    var m1 := if s.typeOnly then m else BlameIf(m, g[s.from].linkError);
    var m2 := AfterDefault(g, m, s);
    assert SameTables(m, m1) && SameTables(m1, m2);
    BlamingAddsNothing(g[m.path := m2], g[s.from], m2, s, s.named);
  }

  lemma {:induction false} NothingAdded(g: Graph, m: Module, s: Statement, r: Module)
    requires SameTables(m, r) && DirectOf(g, s) == ValuesOf(g, s) == TypesOf(g, s) == {}
    requires StarsOf(g, s) == [] && RenamedOf(g, s) == map[]
    ensures Adds(g, m, s, r)
  {
    assert m.indirect + map[] == m.indirect;
  }

  lemma {:induction false} ExportFromAdds(g: Graph, rank: Path -> nat, m: Module, s: Statement)
    requires s.ExportNamespace? || s.ExportStar? || s.ExportFrom?
    requires s.from in g && g[s.from].path == s.from && s.from != m.path
    requires SameBelow(g, g, rank, rank(m.path)) && rank(s.from) < rank(m.path)
    ensures Adds(g, m, s, ExportFromStep(g[m.path := m], m, s))
  {
    var m1 := BlameIf(m, g[s.from].linkError);
    assert SameTables(m, m1);
    if s.ExportFrom? {
      assert g[m.path := m][m.path := m1] == g[m.path := m1];
      ReexportsAdd(g, rank, m1, s, s.specs);
    } else {
      assert m.indirect + map[] == m.indirect;
    }
  }

  lemma {:induction false} StepAdds(g: Graph, rank: Path -> nat, m: Module, s: Statement)
    requires SameBelow(g, g, rank, rank(m.path))
    requires s.Loads() ==> s.from != m.path && (s.from in g ==> rank(s.from) < rank(m.path) && g[s.from].path == s.from)
    ensures Adds(g, m, s, Step(g, m, s))
  {
    if s.Loads() {
      if s.from !in g {
        NothingAdded(g, m, s, m);
      } else if s.Import? {
        ImportAdds(g[m.path := m], m, s);
        NothingAdded(g, m, s, Step(g, m, s));
      } else {
        ExportFromAdds(g, rank, m, s);
      }
    } else if s.ExportLocal? {
      LocalsAdd(m, s.locals);
      assert m.indirect + map[] == m.indirect;
    } else {
      DeclarationAdds(g, m, s);
    }
  }

  /** `r` is `m` with these names added, and otherwise the same. */
  ghost predicate With(m: Module, direct: set<Name>, values: set<Name>, types: set<Name>, r: Module) {
    r == m.(direct := m.direct + direct, symbols := m.symbols + values, types := m.types + types)
  }

  lemma {:induction false} WithThen(m: Module, m1: Module, r: Module, d: set<Name>, v: set<Name>, t: set<Name>,
                                    d': set<Name>, v': set<Name>, t': set<Name>)
    requires With(m, d, v, t, m1) && With(m1, d', v', t', r)
    ensures With(m, d + d', v + v', t + t', r)
  {
    assert m.direct + d + d' == m.direct + (d + d');
    assert m.symbols + v + v' == m.symbols + (v + v');
    assert m.types + t + t' == m.types + (t + t');
  }

  function If(b: bool, n: Name): set<Name> {
    if b then {n} else {}
  }

  lemma {:induction false} ExportedWith(m: Module, kind: DeclKind, name: Name)
    requires !kind.PatternDecl?
    ensures With(m, If(DeclaresValue(kind) && !kind.EnumDecl?, name), If(DeclaresValue(kind), name),
                 If(DeclaresType(kind), name), HoistExported(m, kind, name))
  {
    assert m.direct + {} == m.direct && m.symbols + {} == m.symbols && m.types + {} == m.types;
  }

  lemma {:induction false} DefaultWith(m: Module, kind: DeclKind)
    ensures With(m, If(kind.FunctionDecl? || kind.ClassDecl?, DEFAULT), If(kind.FunctionDecl?, DEFAULT),
                 If(kind.ClassDecl? || kind.InterfaceDecl?, DEFAULT), HoistDefault(m, kind))
  {
    assert m.direct + {} == m.direct && m.symbols + {} == m.symbols && m.types + {} == m.types;
  }

  lemma {:induction false} NothingWith(m: Module)
    ensures With(m, {}, {}, {}, m)
  {
    assert m.direct + {} == m.direct && m.symbols + {} == m.symbols && m.types + {} == m.types;
  }

  /** A hoisted declaration adds all it contributes; a pattern is left to the main pass. */
  lemma {:induction false} HoistWith(g: Graph, m: Module, s: Statement)
    requires s.Declaration? && !s.kind.PatternDecl?
    ensures With(m, DirectOf(g, s), ValuesOf(g, s), TypesOf(g, s), Hoist(m, s))
  {
    var m1 := if s.isExported then HoistExported(m, s.kind, s.name) else m;
    var isValue, isType := DeclaresValue(s.kind), DeclaresType(s.kind);
    var d, v, t := If(s.isExported && isValue && !s.kind.EnumDecl?, s.name), If(s.isExported && isValue, s.name),
                   If(s.isExported && isType, s.name);
    if s.isExported { ExportedWith(m, s.kind, s.name); } else { NothingWith(m); }
    assert With(m, d, v, t, m1);
    DefaultOnly(m1, s);
    var isFunction, isClass := s.kind.FunctionDecl?, s.kind.ClassDecl?;
    WithThen(m, m1, Hoist(m, s), d, v, t, If(s.isDefault && (isFunction || isClass), DEFAULT),
             If(s.isDefault && isFunction, DEFAULT), If(s.isDefault && (isClass || s.kind.InterfaceDecl?), DEFAULT));
  }

  lemma {:induction false} DefaultOnly(m: Module, s: Statement)
    requires s.Declaration?
    ensures var k := s.kind;
            With(m, If(s.isDefault && (k.FunctionDecl? || k.ClassDecl?), DEFAULT),
                 If(s.isDefault && k.FunctionDecl?, DEFAULT),
                 If(s.isDefault && (k.ClassDecl? || k.InterfaceDecl?), DEFAULT),
                 if s.isDefault then HoistDefault(m, k) else m)
  {
    if s.isDefault { DefaultWith(m, s.kind); } else { NothingWith(m); }
  }

  lemma {:induction false} DeclarationAdds(g: Graph, m: Module, s: Statement)
    requires s.Declaration? || s.ExportDefault?
    ensures Adds(g, m, s, Step(g, m, s))
  {
    assert m.indirect + map[] == m.indirect;
    if s.Declaration? && !s.kind.PatternDecl? { HoistWith(g, m, s); }
  }

  // ---------------------------------------------------------------- whole files

  datatype Part = Direct | Values | Types

  function Contributed(g: Graph, part: Part, s: Statement): set<Name> {
    match part
    case Direct => DirectOf(g, s)
    case Values => ValuesOf(g, s)
    case Types => TypesOf(g, s)
  }

  function AllContributed(g: Graph, part: Part, ss: seq<Statement>): set<Name> {
    if ss == [] then {} else AllContributed(g, part, ss[..|ss|-1]) + Contributed(g, part, ss[|ss|-1])
  }

  ghost predicate SomeContributes(g: Graph, part: Part, ss: seq<Statement>, n: Name) {
    exists i :: 0 <= i < |ss| && n in Contributed(g, part, ss[i])
  }

  lemma {:induction false} ContributedBySome(g: Graph, part: Part, ss: seq<Statement>, n: Name)
    ensures n in AllContributed(g, part, ss) <==> SomeContributes(g, part, ss, n)
    decreases |ss|
  {
    if ss != [] {
      var front := ss[..|ss|-1];
      ContributedBySome(g, part, front, n);
      if i :| 0 <= i < |ss| && n in Contributed(g, part, ss[i]) {
        assert i < |front| ==> ss[i] == front[i];
      }
      if i :| 0 <= i < |front| && n in Contributed(g, part, front[i]) {
        assert ss[i] == front[i];
      }
    }
  }

  /** The star sources, in order. */
  function AllStars(g: Graph, ss: seq<Statement>): seq<Path> {
    if ss == [] then [] else AllStars(g, ss[..|ss|-1]) + StarsOf(g, ss[|ss|-1])
  }

  /** The renamed entries, a later one of the same name replacing an earlier. */
  function AllRenamed(g: Graph, ss: seq<Statement>): map<Name, Key> {
    if ss == [] then map[] else AllRenamed(g, ss[..|ss|-1]) + RenamedOf(g, ss[|ss|-1])
  }

  ghost predicate AddsAll(g: Graph, m: Module, ss: seq<Statement>, r: Module) {
    && r.direct == m.direct + AllContributed(g, Direct, ss)
    && r.symbols == m.symbols + AllContributed(g, Values, ss)
    && r.types == m.types + AllContributed(g, Types, ss)
    && r.stars == m.stars + AllStars(g, ss)
    && r.indirect == m.indirect + AllRenamed(g, ss)
  }

  lemma {:induction false} AddsOneMore(g: Graph, m: Module, ss: seq<Statement>, m1: Module, r: Module)
    requires ss != [] && AddsAll(g, m, ss[..|ss|-1], m1) && Adds(g, m1, ss[|ss|-1], r)
    ensures AddsAll(g, m, ss, r)
  {
    var front, s := ss[..|ss|-1], ss[|ss|-1];
    UnionThen(m.direct, AllContributed(g, Direct, front), Contributed(g, Direct, s));
    UnionThen(m.symbols, AllContributed(g, Values, front), Contributed(g, Values, s));
    UnionThen(m.types, AllContributed(g, Types, front), Contributed(g, Types, s));
    MergeThen(m.indirect, AllRenamed(g, front), RenamedOf(g, s));
    ListThen(m.stars, AllStars(g, front), StarsOf(g, s));
  }

  lemma {:induction false} UnionThen(a: set<Name>, b: set<Name>, c: set<Name>)
    ensures a + b + c == a + (b + c)
  {}

  lemma {:induction false} MergeThen(a: map<Name, Key>, b: map<Name, Key>, c: map<Name, Key>)
    ensures a + b + c == a + (b + c)
  {}

  lemma {:induction false} ListThen(a: seq<Path>, b: seq<Path>, c: seq<Path>)
    ensures a + b + c == a + (b + c)
  {}

  lemma {:induction false} FoldAdds(prog: Program, g: Graph, rank: Path -> nat, m: Module, ss: seq<Statement>)
    requires SameBelow(g, g, rank, rank(m.path)) && CanFold(prog, g, rank, m.path, ss) && m.path in g
    ensures AddsAll(g, m, ss, Fold(g, m, ss))
    decreases |ss|
  {
    if ss == [] {
      assert m.indirect + map[] == m.indirect;
    } else {
      var s := ss[|ss|-1];
      FoldAdds(prog, g, rank, m, ss[..|ss|-1]);
      assert CanStep(prog, g, rank, m.path, s);
      StepAdds(g, rank, Fold(g, m, ss[..|ss|-1]), s);
      AddsOneMore(g, m, ss, Fold(g, m, ss[..|ss|-1]), Fold(g, m, ss));
    }
  }

  /** Hoisting only does early what the statements do anyway. */
  ghost predicate Early(g: Graph, ss: seq<Statement>, m: Module, r: Module) {
    && m.direct <= r.direct <= m.direct + AllContributed(g, Direct, ss)
    && m.symbols <= r.symbols <= m.symbols + AllContributed(g, Values, ss)
    && m.types <= r.types <= m.types + AllContributed(g, Types, ss)
    && r.stars == m.stars && r.indirect == m.indirect
  }

  lemma {:induction false} HoistEarly(g: Graph, m: Module, s: Statement)
    ensures var r := Hoist(m, s);
            && m.direct <= r.direct <= m.direct + Contributed(g, Direct, s)
            && m.symbols <= r.symbols <= m.symbols + Contributed(g, Values, s)
            && m.types <= r.types <= m.types + Contributed(g, Types, s)
            && r.stars == m.stars && r.indirect == m.indirect
  {
    if s.Declaration? {
      if s.kind.PatternDecl? { NothingWith(m); } else { HoistWith(g, m, s); }
    }
  }

  lemma {:induction false} HoistAllEarly(g: Graph, m: Module, ss: seq<Statement>)
    ensures Early(g, ss, m, HoistAll(m, ss))
    decreases |ss|
  {
    if ss != [] {
      HoistAllEarly(g, m, ss[..|ss|-1]);
      HoistEarly(g, HoistAll(m, ss[..|ss|-1]), ss[|ss|-1]);
    }
  }

  // ---------------------------------------------------------------- finished records

  predicate HasCommonJsDefault(src: Source) {
    src.Code? && !src.isESM && src.cjsMarkers
  }

  /** What a finished record of an acyclic program holds: its direct exports and the two halves of its table are what
      its statements contribute, no more and no less, but for the default of a CommonJS file; its star sources are in
      the order of the text, and of two re-exports under one name the later counts. */

  lemma {:induction false} RecordHolds(prog: Program, g: Graph, rank: Path -> nat, p: Path, n: Name)
    requires Acyclic(prog, rank) && p in g && Sound(prog, g, rank, rank(p) + 1) && p in prog && prog[p].Code?
    ensures var ss, m := Body(prog[p]), g[p];
            && (n in m.direct <==> SomeContributes(g, Direct, ss, n))
            && (n in m.symbols <==> SomeContributes(g, Values, ss, n) || (n == DEFAULT && HasCommonJsDefault(prog[p])))
            && (n in m.types <==> SomeContributes(g, Types, ss, n))
            && m.stars == AllStars(g, ss) && m.indirect == AllRenamed(g, ss) && m.analyzed
  {
    var ss, bare := Body(prog[p]), Bare(p, prog[p]);
    assert Settled(prog, g, p);
    AcyclicCanFold(prog, g, rank, p, ss);
    SoundSame(prog, g, g, rank, rank(p) + 1, rank(p));
    HoistAllEarly(g, bare, ss);
    FoldAdds(prog, g, rank, Started(prog, p), ss);
    FoldKind(g, bare, ss);
    ContributedBySome(g, Direct, ss, n);
    ContributedBySome(g, Values, ss, n);
    ContributedBySome(g, Types, ss, n);
    assert map[] + AllRenamed(g, ss) == AllRenamed(g, ss) && [] + AllStars(g, ss) == AllStars(g, ss);
  }
}
