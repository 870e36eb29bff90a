/** The eager export tables against the resolver, on linked acyclic graphs. */
module ExportTables {
  import opened ModuleGraph
  import opened ResolveExport
  import opened ResolveProperties
  import opened ExportRoutes
  import opened Linker
  import opened LinkedGraphs
  import opened Loading
  import opened LinkErrors

  // ---------------------------------------------------------------- what a module declares itself

  /** The names one statement puts into the table of its own module by declaring them. */
  function Own(s: Statement): set<Name> {
    match s
    case Declaration(kind, name, exported, default) =>
      (if exported then {name} else {}) + (if default then {DEFAULT} else {})
    case ExportNamespace(_, _, exported) => {exported}
    case ExportLocal(locals) => set i | 0 <= i < |locals| :: locals[i].exported
    case ExportDefault => {DEFAULT}
    case _ => {}
  }

  function OwnAll(ss: seq<Statement>): set<Name> {
    set i, n | 0 <= i < |ss| && n in Own(ss[i]) :: n
  }

  /** The names file `src` declares; a CommonJS file always has a default. */
  function OwnNames(src: Source): set<Name> {
    match src
    case Broken(_) => {}
    case Opaque(symbols, types, _, _) => symbols + types
    case Code(ss, _, esm, cjs) => OwnAll(ss) + (if !esm && cjs then {DEFAULT} else {})
  }

  /** Every name listed in a local `export { ... }` is bound in the module's scope. */
  ghost predicate LocalsBound(s: Statement) {
    s.ExportLocal? ==> forall i :: 0 <= i < |s.locals| ==> s.locals[i].bound != Unbound
  }

  ghost predicate AllLocalsBound(prog: Program) {
    forall p, i :: p in prog && 0 <= i < |Body(prog[p])| ==> LocalsBound(Body(prog[p])[i])
  }

  // ---------------------------------------------------------------- an invariant of a record under construction

  ghost predicate StarCopied(g: Graph, m: Module, src: Path) {
    src in g && forall n :: n != DEFAULT && g[src].Exports(n) ==> m.Exports(n)
  }

  ghost predicate ReexportBound(g: Graph, m: Module, n: Name)
    requires n in m.indirect
  {
    var (src, srcName) := m.indirect[n];
    src in g && (g[src].Exports(srcName) && Resolve(g, src, srcName, {}).Found? ==> m.Exports(n))
  }

  ghost predicate FromStar(g: Graph, m: Module, n: Name) {
    exists src :: src in m.stars && src in g && n != DEFAULT && g[src].Exports(n)
  }

  /** Direct names are bound, star sources copied, resolvable re-exports bound; and nothing else is in the
      table but what the module declares, re-exports by name, or copied from a star source. */
  ghost predicate TableInvariant(g: Graph, m: Module, own: set<Name>) {
    && (forall n :: n in m.direct ==> m.Exports(n) && n in own)
    && (forall src :: src in m.stars ==> StarCopied(g, m, src))
    && (forall n :: n in m.indirect ==> ReexportBound(g, m, n))
    && (forall n :: m.Exports(n) ==> n in own || n in m.indirect || FromStar(g, m, n))
  }

  lemma {:induction false} OwnNameAdded(g: Graph, m: Module, m': Module, own: set<Name>, names: set<Name>)
    requires TableInvariant(g, m, own) && names <= own
    requires m'.stars == m.stars && m'.indirect == m.indirect
    requires m.direct <= m'.direct <= m.direct + names
    requires m.symbols <= m'.symbols <= m.symbols + names
    requires m.types <= m'.types <= m.types + names
    requires forall n :: n in names && n in m'.direct ==> m'.Exports(n)
    ensures TableInvariant(g, m', own)
  {
    forall n | m'.Exports(n)
      ensures n in own || n in m'.indirect || FromStar(g, m', n)
    {
      if m.Exports(n) && FromStar(g, m, n) {
        var src :| src in m.stars && src in g && n != DEFAULT && g[src].Exports(n);
        assert src in m'.stars;
      }
    }
    forall src | src in m'.stars
      ensures StarCopied(g, m', src)
    {
      assert StarCopied(g, m, src);
    }
    forall n | n in m'.indirect
      ensures ReexportBound(g, m', n)
    {
      assert ReexportBound(g, m, n);
    }
  }

  lemma {:induction false} HoistInvariant(g: Graph, m: Module, s: Statement, own: set<Name>)
    requires TableInvariant(g, m, own) && Own(s) <= own
    ensures TableInvariant(g, Hoist(m, s), own)
  {
    if s.Declaration? {
      var m1 := if s.isExported then HoistExported(m, s.kind, s.name) else m;
      if s.isExported { ExportedInvariant(g, m, s.kind, s.name, own); }
      if s.isDefault { DefaultInvariant(g, m1, s.kind, own); }
    }
  }

  lemma {:induction false} ExportedInvariant(g: Graph, m: Module, kind: DeclKind, name: Name, own: set<Name>)
    requires TableInvariant(g, m, own) && name in own
    ensures TableInvariant(g, HoistExported(m, kind, name), own)
  {
    OwnNameAdded(g, m, HoistExported(m, kind, name), own, {name});
  }

  lemma {:induction false} DefaultInvariant(g: Graph, m: Module, kind: DeclKind, own: set<Name>)
    requires TableInvariant(g, m, own) && DEFAULT in own
    ensures TableInvariant(g, HoistDefault(m, kind), own)
  {
    OwnNameAdded(g, m, HoistDefault(m, kind), own, {DEFAULT});
  }

  lemma {:induction false} LocalsInvariant(g: Graph, m: Module, locals: seq<LocalSpec>, own: set<Name>)
    requires TableInvariant(g, m, own)
    requires forall i :: 0 <= i < |locals| ==> locals[i].bound != Unbound && locals[i].exported in own
    ensures TableInvariant(g, ExportLocals(m, locals), own)
    decreases |locals|
  {
    if locals != [] {
      var last := |locals| - 1;
      LocalsInvariant(g, m, locals[..last], own);
      OwnNameAdded(g, ExportLocals(m, locals[..last]), ExportLocals(m, locals), own, {locals[last].exported});
    }
  }

  /** Only the tables and entries matter, not the link error. */
  lemma {:induction false} ErrorIrrelevant(g: Graph, m: Module, m': Module, own: set<Name>)
    requires TableInvariant(g, m, own) && m' == m.(linkError := m'.linkError)
    ensures TableInvariant(g, m', own)
  {
    OwnNameAdded(g, m, m', own, {});
  }

  lemma {:induction false} NamedKeepsTables(g: Graph, t: Module, m: Module, s: Statement, specs: seq<ImportSpec>)
    requires s.Import?
    ensures var r := BlameNamed(g, t, m, s, specs); r == m.(linkError := r.linkError)
    decreases |specs|
  {
    if specs != [] { NamedKeepsTables(g, t, m, s, specs[..|specs|-1]); }
  }

  lemma {:induction false} StarInvariant(g: Graph, m: Module, src: Path, own: set<Name>)
    requires TableInvariant(g, m, own) && src in g && g[src].path == src
    ensures TableInvariant(g, CopyStar(m, g[src]), own)
  {
    var m' := CopyStar(m, g[src]);
    assert forall x :: x in m'.stars <==> x in m.stars || x == src;
    forall x | x in m'.stars
      ensures StarCopied(g, m', x)
    {
      if x in m.stars { assert StarCopied(g, m, x); }
    }
    forall n | n in m'.indirect
      ensures ReexportBound(g, m', n)
    {
      assert ReexportBound(g, m, n);
    }
    forall n | m'.Exports(n)
      ensures n in own || n in m'.indirect || FromStar(g, m', n)
    {
      if m.Exports(n) {
        if FromStar(g, m, n) {
          var x :| x in m.stars && x in g && n != DEFAULT && g[x].Exports(n);
          assert x in m'.stars;
        }
      } else {
        assert src in m'.stars && g[src].Exports(n);
      }
    }
  }

  /** `m'` is `m` with a named re-export recorded, and its binding copied if it has one. */
  ghost predicate ReexportAdded(g: Graph, m: Module, m': Module, exported: Name, target: Key) {
    && m'.indirect == m.indirect[exported := target] && m'.stars == m.stars && m'.direct == m.direct
    && m.symbols <= m'.symbols <= m.symbols + {exported}
    && m.types <= m'.types <= m.types + {exported}
    && ReexportBound(g, m', exported)
  }

  lemma {:induction false} ReexportAdds(g: Graph, rank: Path -> nat, m: Module, h: Graph, s: Statement,
                                        spec: ReexportSpec)
    requires s.ExportFrom? && s.from in g && h == g[m.path := m] && g[s.from].path == s.from
    requires SameBelow(g, g, rank, rank(m.path)) && rank(s.from) < rank(m.path)
    ensures ReexportAdded(g, m, Reexport(h, m, s, spec), spec.exported, (s.from, spec.name))
  {
    var m1 := m.(indirect := m.indirect[spec.exported := (s.from, spec.name)]);
    var h1, t := h[m.path := m1], g[s.from];
    assert h1 == g[m.path := m1] && h1[s.from] == t;
    UnseenFrom(g, rank, m.path, m1, s.from, spec.name);
    var err := ReexportError(h1, t, s, spec);
    FoundHasNoError(h1, t, s, spec);
    CopiedIfFound(g, m, m1, t, err, spec, (s.from, spec.name));
  }

  lemma {:induction false} FoundHasNoError(g: Graph, t: Module, s: Statement, spec: ReexportSpec)
    requires s.ExportFrom?
    ensures Resolve(g, s.from, spec.name, {}).Found? ==> ReexportError(g, t, s, spec) == ""
  {}

  lemma {:induction false} CopiedIfFound(g: Graph, m: Module, m1: Module, t: Module, err: string, spec: ReexportSpec,
                                         target: Key)
    requires m1 == m.(indirect := m.indirect[spec.exported := target])
    requires target.0 in g && g[target.0] == t && target.1 == spec.name
    requires Resolve(g, target.0, target.1, {}).Found? ==> err == ""
    ensures var m' := if err != "" then Blame(m1, err) else CopyBinding(m1, t, spec.name, spec.exported);
            ReexportAdded(g, m, m', spec.exported, target)
  {}

  lemma {:induction false} ReexportInvariant(g: Graph, m: Module, m': Module, exported: Name, target: Key,
                                             own: set<Name>)
    requires ReexportAdded(g, m, m', exported, target) && TableInvariant(g, m, own)
    ensures TableInvariant(g, m', own)
  {
    forall n | n in m'.indirect
      ensures ReexportBound(g, m', n)
    {
      if n != exported { assert ReexportBound(g, m, n); }
    }
    forall x | x in m'.stars
      ensures StarCopied(g, m', x)
    {
      assert StarCopied(g, m, x);
    }
    forall n | m'.Exports(n)
      ensures n in own || n in m'.indirect || FromStar(g, m', n)
    {
      if n != exported { SameStars(g, m, m', n); }
    }
  }

  lemma {:induction false} SameStars(g: Graph, m: Module, m': Module, n: Name)
    requires m'.stars == m.stars
    ensures FromStar(g, m', n) <==> FromStar(g, m, n)
  {}

  lemma {:induction false} ReexportAllInvariant(g: Graph, rank: Path -> nat, m: Module, s: Statement,
                                                specs: seq<ReexportSpec>, own: set<Name>)
    requires s.ExportFrom? && s.from in g && g[s.from].path == s.from
    requires SameBelow(g, g, rank, rank(m.path)) && rank(s.from) < rank(m.path)
    requires TableInvariant(g, m, own)
    ensures TableInvariant(g, ReexportAll(g[m.path := m], m, s, specs), own)
    decreases |specs|
  {
    if specs != [] {
      var last := |specs| - 1;
      ReexportAllInvariant(g, rank, m, s, specs[..last], own);
      var m1 := ReexportAll(g[m.path := m], m, s, specs[..last]);
      assert g[m.path := m][m.path := m1] == g[m.path := m1];
      var h := g[m.path := m1];
      ReexportAdds(g, rank, m1, h, s, specs[last]);
      ReexportInvariant(g, m1, Reexport(h, m1, s, specs[last]), specs[last].exported, (s.from, specs[last].name), own);
    }
  }

  lemma {:induction false} LoadingStepInvariant(g: Graph, rank: Path -> nat, m: Module, s: Statement, own: set<Name>)
    requires s.Loads() && s.from in g && g[s.from].path == s.from
    requires SameBelow(g, g, rank, rank(m.path)) && rank(s.from) < rank(m.path)
    requires TableInvariant(g, m, own) && Own(s) <= own
    ensures TableInvariant(g, Step(g, m, s), own)
  {
    var h := g[m.path := m];
    if s.Import? {
      var m1 := if s.typeOnly then m else BlameIf(m, h[s.from].linkError);
      var m2 := BlameIf(m1, DefaultImportError(h[m.path := m1], h[s.from], s));
      NamedKeepsTables(h[m.path := m2], h[s.from], m2, s, s.named);
      ErrorIrrelevant(g, m, ImportStep(h, m, s), own);
    } else {
      var m1 := BlameIf(m, h[s.from].linkError);
      ErrorIrrelevant(g, m, m1, own);
      if s.ExportNamespace? {
        OwnNameAdded(g, m1, DirectValue(m1, s.exported), own, {s.exported});
      } else if s.ExportStar? {
        StarInvariant(g, m1, s.from, own);
      } else {
        assert h[m.path := m1] == g[m.path := m1];
        ReexportAllInvariant(g, rank, m1, s, s.specs, own);
      }
    }
  }

  lemma {:induction false} StepInvariant(g: Graph, rank: Path -> nat, m: Module, s: Statement, own: set<Name>)
    requires s.Loads() ==> s.from != m.path && (s.from in g ==> g[s.from].path == s.from && rank(s.from) < rank(m.path))
    requires SameBelow(g, g, rank, rank(m.path))
    requires TableInvariant(g, m, own) && Own(s) <= own && LocalsBound(s)
    ensures TableInvariant(g, Step(g, m, s), own)
  {
    if s.Loads() {
      if s.from in g { LoadingStepInvariant(g, rank, m, s, own); }
    } else if s.ExportLocal? {
      LocalsInvariant(g, m, s.locals, own);
    } else if s.ExportDefault? {
      OwnNameAdded(g, m, Step(g, m, s), own, {DEFAULT});
    } else if s.kind.PatternDecl? {
      OwnNameAdded(g, m, Step(g, m, s), own, if s.isExported then {s.name} else {});
    } else {
      HoistInvariant(g, m, s, own);
    }
  }

  // ---------------------------------------------------------------- finished records

  lemma {:induction false} OwnWithin(ss: seq<Statement>, i: nat)
    requires i < |ss|
    ensures Own(ss[i]) <= OwnAll(ss)
  {}

  lemma {:induction false} HoistAllInvariant(g: Graph, m: Module, ss: seq<Statement>, own: set<Name>)
    requires TableInvariant(g, m, own)
    requires forall i :: 0 <= i < |ss| ==> Own(ss[i]) <= own
    ensures TableInvariant(g, HoistAll(m, ss), own)
    decreases |ss|
  {
    if ss != [] {
      HoistAllInvariant(g, m, ss[..|ss|-1], own);
      HoistInvariant(g, HoistAll(m, ss[..|ss|-1]), ss[|ss|-1], own);
    }
  }

  /** What a statement needs of the graph below it. */
  ghost predicate StepReady(g: Graph, rank: Path -> nat, p: Path, s: Statement, own: set<Name>) {
    && (s.Loads() ==> s.from != p && (s.from in g ==> g[s.from].path == s.from && rank(s.from) < rank(p)))
    && Own(s) <= own && LocalsBound(s)
  }

  lemma {:induction false} FoldInvariant(g: Graph, rank: Path -> nat, m: Module, ss: seq<Statement>, own: set<Name>)
    requires SameBelow(g, g, rank, rank(m.path)) && TableInvariant(g, m, own)
    requires forall i :: 0 <= i < |ss| ==> StepReady(g, rank, m.path, ss[i], own)
    ensures TableInvariant(g, Fold(g, m, ss), own)
    decreases |ss|
  {
    if ss != [] {
      FoldInvariant(g, rank, m, ss[..|ss|-1], own);
      assert StepReady(g, rank, m.path, ss[|ss|-1], own);
      StepInvariant(g, rank, Fold(g, m, ss[..|ss|-1]), ss[|ss|-1], own);
    }
  }

  /** A finished, linked graph of an acyclic program. */
  ghost predicate Finished(prog: Program, g: Graph, rank: Path -> nat) {
    && Acyclic(prog, rank) && AllLocalsBound(prog)
    && g.Keys <= prog.Keys
    && (forall q :: q in g ==> q != "" && g[q].path == q && SourcesDescend(g, rank, g[q]))
    && Linked(prog, g)
  }

  lemma {:induction false} CodeInvariant(prog: Program, g: Graph, rank: Path -> nat, p: Path)
    requires Finished(prog, g, rank) && p in g && prog[p].Code?
    ensures TableInvariant(g, g[p], OwnNames(prog[p]))
  {
    var ss, own := Body(prog[p]), OwnNames(prog[p]);
    assert Settled(prog, g, p);
    forall i | 0 <= i < |ss|
      ensures StepReady(g, rank, p, ss[i], own)
    {
      OwnWithin(ss, i);
      assert Descends(prog, rank, p, ss[i]);
      assert LocalsBound(Body(prog[p])[i]);
    }
    HoistAllInvariant(g, Bare(p, prog[p]), ss, own);
    FoldInvariant(g, rank, Started(prog, p), ss, own);
    var m := Fold(g, Started(prog, p), ss);
    FoldKind(g, Bare(p, prog[p]), ss);
    OwnNameAdded(g, m, Finish(m), own, if !m.kind.isESM && m.kind.cjsMarkers then {DEFAULT} else {});
  }

  lemma {:induction false} FoldKind(g: Graph, m: Module, ss: seq<Statement>)
    ensures Fold(g, HoistAll(m, ss), ss).kind == m.kind
  {
    HoistKind(m, ss);
    FoldKindFrom(g, HoistAll(m, ss), ss);
  }

  lemma {:induction false} HoistKind(m: Module, ss: seq<Statement>)
    ensures HoistAll(m, ss).kind == m.kind
    decreases |ss|
  {
    if ss != [] { HoistKind(m, ss[..|ss|-1]); }
  }

  lemma {:induction false} FoldKindFrom(g: Graph, m: Module, ss: seq<Statement>)
    ensures Fold(g, m, ss).kind == m.kind
    decreases |ss|
  {
    if ss != [] {
      FoldKindFrom(g, m, ss[..|ss|-1]);
      StepKind(g, Fold(g, m, ss[..|ss|-1]), ss[|ss|-1]);
    }
  }

  lemma {:induction false} StepKind(g: Graph, m: Module, s: Statement)
    ensures Step(g, m, s).kind == m.kind
  {
    if s.Loads() {
      var h := g[m.path := m];
      if s.from in h {
        if s.Import? {
          var m1 := if s.typeOnly then m else BlameIf(m, h[s.from].linkError);
          var m2 := BlameIf(m1, DefaultImportError(h[m.path := m1], h[s.from], s));
          NamedKeepsTables(h[m.path := m2], h[s.from], m2, s, s.named);
        } else if s.ExportFrom? {
          var m1 := BlameIf(m, h[s.from].linkError);
          ReexportKind(h[m.path := m1], m1, s, s.specs);
        }
      }
    } else if s.ExportLocal? {
      LocalsKind(m, s.locals);
    }
  }

  lemma {:induction false} ReexportKind(g: Graph, m: Module, s: Statement, specs: seq<ReexportSpec>)
    requires s.ExportFrom? && s.from in g
    ensures ReexportAll(g, m, s, specs).kind == m.kind
    decreases |specs|
  {
    if specs != [] { ReexportKind(g, m, s, specs[..|specs|-1]); }
  }

  lemma {:induction false} LocalsKind(m: Module, locals: seq<LocalSpec>)
    ensures ExportLocals(m, locals).kind == m.kind
    decreases |locals|
  {
    if locals != [] { LocalsKind(m, locals[..|locals|-1]); }
  }

  lemma {:induction false} SettledInvariant(prog: Program, g: Graph, rank: Path -> nat, p: Path)
    requires Finished(prog, g, rank) && p in g
    ensures p in prog && TableInvariant(g, g[p], OwnNames(prog[p])) && g[p].analyzed
  {
    assert Settled(prog, g, p);
    if prog[p].Code? { CodeInvariant(prog, g, rank, p); }
  }

  // ---------------------------------------------------------------- the table holds whatever resolves

  ghost predicate VisitedAbove(rank: Path -> nat, p: Path, visited: set<Key>) {
    forall k: Key :: k in visited ==> rank(p) < rank(k.0)
  }

  lemma {:induction false} SomeBranchGives(g: Graph, stars: seq<Path>, name: Name,
                                           visited: set<Key>) returns (src: Path)
    requires StarDefiners(g, stars, name, visited) != {}
    ensures src in stars && src in g && Resolve(g, src, name, visited).Found?
  {
    var d :| d in StarDefiners(g, stars, name, visited);
    StarDefinersAre(g, stars, name, visited, d);
    src :| src in stars && BranchGives(g, src, name, visited, d);
  }

  /** A name that resolves FOUND is in the table, or named in a re-export, or found through a star source. */
  lemma {:induction false} FoundCases(g: Graph, p: Path, name: Name, visited: set<Key>)
    requires p in g && g[p].path == p && g[p].analyzed && Resolve(g, p, name, visited).Found?
    ensures name in g[p].indirect || name in g[p].direct || g[p].Exports(name)
         || (name != DEFAULT && StarDefiners(g, g[p].stars, name, visited + {(p, name)}) != {})
  {}

  /** Every name that resolves FOUND in a module is bound in that module's export table. */
  lemma {:induction false} FoundIsBound(prog: Program, g: Graph, rank: Path -> nat, p: Path, name: Name,
                                        visited: set<Key>)
    requires Finished(prog, g, rank) && p in g && VisitedAbove(rank, p, visited)
    requires Resolve(g, p, name, visited).Found?
    ensures g[p].Exports(name)
    decreases rank(p)
  {
    SettledInvariant(prog, g, rank, p);
    FoundCases(g, p, name, visited);
    var m, key := g[p], (p, name);
    if name in m.indirect {
      ReexportFoundIsBound(prog, g, rank, p, name, visited);
    } else if name !in m.direct && !m.Exports(name) {
      StarFoundIsBound(prog, g, rank, p, name, visited);
    }
  }

  lemma {:induction false} StarFoundIsBound(prog: Program, g: Graph, rank: Path -> nat, p: Path, name: Name,
                                            visited: set<Key>)
    requires Finished(prog, g, rank) && p in g && VisitedAbove(rank, p, visited) && name != DEFAULT
    requires StarDefiners(g, g[p].stars, name, visited + {(p, name)}) != {}
    ensures g[p].Exports(name)
    decreases rank(p), 0
  {
    var src := SomeBranchGives(g, g[p].stars, name, visited + {(p, name)});
    SettledStar(prog, g, rank, p, src);
    SeenAbove(rank, p, name, visited, src);
    FoundIsBound(prog, g, rank, src, name, visited + {(p, name)});
  }

  lemma {:induction false} SettledReexport(prog: Program, g: Graph, rank: Path -> nat, p: Path, name: Name)
    requires Finished(prog, g, rank) && p in g && name in g[p].indirect
    ensures ReexportBound(g, g[p], name) && g[p].path == p && rank(g[p].indirect[name].0) < rank(p)
  {
    SettledInvariant(prog, g, rank, p);
    assert SourcesDescend(g, rank, g[p]);
  }

  lemma {:induction false} SettledStar(prog: Program, g: Graph, rank: Path -> nat, p: Path, src: Path)
    requires Finished(prog, g, rank) && p in g && src in g[p].stars
    ensures StarCopied(g, g[p], src) && rank(src) < rank(p)
  {
    SettledInvariant(prog, g, rank, p);
    assert SourcesDescend(g, rank, g[p]);
  }

  lemma {:induction false} SeenAbove(rank: Path -> nat, p: Path, name: Name, visited: set<Key>, q: Path)
    requires VisitedAbove(rank, p, visited) && rank(q) < rank(p)
    ensures VisitedAbove(rank, q, visited + {(p, name)})
  {}

  lemma {:induction false} FollowsReexport(g: Graph, p: Path, name: Name, visited: set<Key>)
    requires p in g && g[p].path == p && name in g[p].indirect && Resolve(g, p, name, visited).Found?
    ensures var next := g[p].indirect[name];
            next.0 in g && Resolve(g, next.0, next.1, visited + {(p, name)}).Found?
  {}

  lemma {:induction false} ReexportFoundIsBound(prog: Program, g: Graph, rank: Path -> nat, p: Path, name: Name,
                                                visited: set<Key>)
    requires Finished(prog, g, rank) && p in g && VisitedAbove(rank, p, visited)
    requires name in g[p].indirect && Resolve(g, p, name, visited).Found?
    ensures g[p].Exports(name)
    decreases rank(p), 0
  {
    SettledReexport(prog, g, rank, p, name);
    FollowsReexport(g, p, name, visited);
    var next, seen := g[p].indirect[name], visited + {(p, name)};
    SeenAbove(rank, p, name, visited, next.0);
    FoundIsBound(prog, g, rank, next.0, next.1, seen);
    VisitedAboveIgnored(g, rank, next.0, next.1, seen, {});
    assert Resolve(g, next.0, next.1, {}).Found?;
  }

  // ---------------------------------------------------------------- resolution on a linked graph

  /** The keys files declare themselves, as far as the search can stop at them. */
  ghost function OwnKeys(prog: Program, g: Graph): iset<Key> {
    iset k: Key | k in Terminals(g) && k.0 in prog && k.1 in OwnNames(prog[k.0])
  }

  /** No named re-export is left dangling. */
  ghost predicate ReexportsResolve(g: Graph) {
    forall p, n :: p in g && n in g[p].indirect ==> Resolve(g, g[p].indirect[n].0, g[p].indirect[n].1, {}).Found?
  }

  lemma {:induction false} FinishedIsRanked(prog: Program, g: Graph, rank: Path -> nat)
    requires Finished(prog, g, rank)
    ensures WellKeyed(g) && Ranked(g, rank)
  {}

  lemma {:induction false} ReachThrough(g: Graph, rank: Path -> nat, ends: iset<Key>, k: Key, l: Key)
    requires Ranked(g, rank) && Hop(g, k, l) && ReachesAny(g, ends, l, {})
    ensures ReachesAny(g, ends, k, {})
  {
    var d :| Reach(g, ends, l, {}, d);
    var w :| Leads(g, ends, l, {}, d, w);
    forall i | 0 <= i < |w|
      ensures w[i] != k
    {
      if i > 0 { RouteDescends(g, rank, w, 0, i); }
    }
    assert Leads(g, ends, l, {} + {k}, d, w);
    ReachExtend(g, ends, k, l, {}, d);
  }

  /** Every name in a table can be traced to a file that declares it. */
  lemma {:induction false} BoundIsReached(prog: Program, g: Graph, rank: Path -> nat, p: Path, name: Name)
    requires Finished(prog, g, rank) && ReexportsResolve(g) && p in g && g[p].Exports(name)
    ensures ReachesAny(g, OwnKeys(prog, g), (p, name), {})
    decreases rank(p)
  {
    FinishedIsRanked(prog, g, rank);
    SettledInvariant(prog, g, rank, p);
    var m, own, k := g[p], OwnKeys(prog, g), (p, name);
    if name in m.indirect {
      var next := m.indirect[name];
      FoundIsBound(prog, g, rank, next.0, next.1, {});
      BoundIsReached(prog, g, rank, next.0, next.1);
      ReachThrough(g, rank, own, k, next);
    } else if name in OwnNames(prog[p]) {
      ReachHere(g, own, k, {});
    } else {
      assert FromStar(g, m, name);
      var src :| src in m.stars && src in g && name != DEFAULT && g[src].Exports(name);
      BoundIsReached(prog, g, rank, src, name);
      ReachThrough(g, rank, own, k, (src, name));
    }
  }

  /** On a linked acyclic program whose named re-exports resolve, a query reports the declaring file that is
      visible through the re-exports exactly when there is one, if there is at most one. */
  lemma {:induction false} LinkedResolution(prog: Program, g: Graph, rank: Path -> nat, p: Path, name: Name)
    requires Finished(prog, g, rank) && ReexportsResolve(g)
    requires AtMostOneVisible(g, OwnKeys(prog, g), (p, name))
    ensures forall d :: Resolve(g, p, name, {}) == Found(d) <==> Visible(g, OwnKeys(prog, g), (p, name), d)
    ensures Resolve(g, p, name, {}).Found? || Resolve(g, p, name, {}).NotFound?
  {
    var own, k := OwnKeys(prog, g), (p, name);
    FinishedIsRanked(prog, g, rank);
    forall l: Key | l.0 in g && l.1 !in g[l.0].indirect && l.1 in g[l.0].direct
      ensures l in own
    {
      SettledInvariant(prog, g, rank, l.0);
    }
    forall l | l in Terminals(g) - own
      ensures ReachesAny(g, own, l, {})
    {
      SettledInvariant(prog, g, rank, l.0);
      BoundIsReached(prog, g, rank, l.0, l.1);
    }
    AcyclicIsOpen(g, own, rank, k);
    ResolveReportsVisible(g, own, p, name);
    ChainEnds(g, rank, k);
  }

  lemma {:induction false} ChainEnds(g: Graph, rank: Path -> nat, k: Key)
    requires Ranked(g, rank)
    ensures !ChainStays(g, k, rank(k.0) + 1)
    decreases rank(k.0)
  {
    if Renames(g, k) {
      var next := g[k.0].indirect[k.1];
      assert Hop(g, k, next);
      ChainEnds(g, rank, next);
      if ChainStays(g, next, rank(k.0)) { ChainShortens(g, next, rank(next.0) + 1, rank(k.0)); }
    }
  }

  /** Loading an acyclic program from its entry leaves such a graph. */
  lemma {:induction false} LoadFinishes(prog: Program, rank: Path -> nat, p: Path)
    requires Acyclic(prog, rank) && AllLocalsBound(prog) && "" !in prog
    ensures Finished(prog, Load(prog, EMPTY, p).mods, rank)
  {
    LoadLinks(prog, p, rank);
  }
}
