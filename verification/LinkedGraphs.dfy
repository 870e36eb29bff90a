/** What loading an acyclic program leaves behind: every record is the fold of its own statements over the
    finished graph. */
module LinkedGraphs {
  import opened ModuleGraph
  import opened ResolveExport
  import opened ResolveProperties
  import opened Linker

  /** The static import graph has no cycle: statements load only files of smaller rank. */
  ghost predicate Acyclic(prog: Program, rank: Path -> nat) {
    forall p, i :: p in prog && 0 <= i < |Body(prog[p])| ==> Descends(prog, rank, p, Body(prog[p])[i])
  }

  ghost predicate Descends(prog: Program, rank: Path -> nat, p: Path, s: Statement) {
    s.Loads() && s.from in prog ==> rank(s.from) < rank(p)
  }

  // ---------------------------------------------------------------- records over a finished graph

  function Fold(g: Graph, m: Module, ss: seq<Statement>): (r: Module)
    ensures r.path == m.path
  {
    if ss == [] then m else Step(g, Fold(g, m, ss[..|ss|-1]), ss[|ss|-1])
  }

  function Started(prog: Program, p: Path): (r: Module)
    requires p in prog
    ensures r.path == p
  {
    HoistAll(Bare(p, prog[p]), Body(prog[p]))
  }

  /** The record file `p` ends up with when everything it loads is already as in `g`. */
  function Record(prog: Program, g: Graph, p: Path): (r: Module)
    requires p in prog
    ensures r.path == p
  {
    var m := Fold(g, Started(prog, p), Body(prog[p]));
    if prog[p].Code? then Finish(m) else m
  }

  /** Everything the statements name is loaded if it exists at all. */
  ghost predicate TargetsLoaded(prog: Program, g: Graph, ss: seq<Statement>) {
    forall i :: 0 <= i < |ss| && ss[i].Loads() ==> (ss[i].from in prog <==> ss[i].from in g)
  }

  ghost predicate Settled(prog: Program, g: Graph, p: Path) {
    && p in prog && p in g
    && TargetsLoaded(prog, g, Body(prog[p]))
    && g[p] == Record(prog, g, p)
  }

  ghost predicate Linked(prog: Program, g: Graph) {
    forall p :: p in g ==> Settled(prog, g, p)
  }

  // ---------------------------------------------------------------- the part of a graph below a rank

  /** The modules a record re-exports from are present and of smaller rank. */
  ghost predicate SourcesDescend(g: Graph, rank: Path -> nat, m: Module) {
    && (forall i :: 0 <= i < |m.stars| ==> m.stars[i] in g && rank(m.stars[i]) < rank(m.path))
    && (forall n :: n in m.indirect ==> m.indirect[n].0 in g && rank(m.indirect[n].0) < rank(m.path))
  }

  /** `h` has every module of `g` below rank `r`, unchanged. */
  ghost predicate SameBelow(g: Graph, h: Graph, rank: Path -> nat, r: nat) {
    forall q :: q in g && rank(q) < r ==>
      q in h && g[q] == h[q] && g[q].path == q && SourcesDescend(g, rank, g[q])
  }

  lemma {:induction false} ResolveAgrees(g: Graph, h: Graph, rank: Path -> nat, p: Path, name: Name, visited: set<Key>)
    requires SameBelow(g, h, rank, rank(p) + 1) && p in g
    ensures Resolve(g, p, name, visited) == Resolve(h, p, name, visited)
    decreases rank(p)
  {
    var key := (p, name);
    if key !in visited {
      if name in g[p].indirect {
        var (src, srcName) := g[p].indirect[name];
        ResolveAgrees(g, h, rank, src, srcName, visited + {key});
      } else if name !in g[p].direct && name != DEFAULT {
        var stars := g[p].stars;
        forall src | src in stars
          ensures Resolve(g, src, name, visited + {key}) == Resolve(h, src, name, visited + {key})
        {
          ResolveAgrees(g, h, rank, src, name, visited + {key});
        }
        var ds := StarDefiners(g, stars, name, visited + {key});
        var es := StarDefiners(h, stars, name, visited + {key});
        forall d
          ensures d in ds <==> d in es
        {
          StarDefinersAre(g, stars, name, visited + {key}, d);
          StarDefinersAre(h, stars, name, visited + {key}, d);
          assert forall src :: src in stars ==>
            (BranchGives(g, src, name, visited + {key}, d) <==> BranchGives(h, src, name, visited + {key}, d));
        }
        assert ds == es;
      }
    }
  }

  /** Visited keys of larger rank do not matter on an acyclic graph. */
  lemma {:induction false} VisitedAboveIgnored(g: Graph, rank: Path -> nat, p: Path, name: Name, v: set<Key>,
                                               w: set<Key>)
    requires SameBelow(g, g, rank, rank(p) + 1) && p in g
    requires forall k: Key :: k in v + w ==> rank(p) < rank(k.0)
    ensures Resolve(g, p, name, v) == Resolve(g, p, name, w)
    decreases rank(p)
  {
    var key := (p, name);
    if name in g[p].indirect {
      var (src, srcName) := g[p].indirect[name];
      VisitedAboveIgnored(g, rank, src, srcName, v + {key}, w + {key});
    } else if name !in g[p].direct && name != DEFAULT {
      var stars := g[p].stars;
      forall src | src in stars
        ensures Resolve(g, src, name, v + {key}) == Resolve(g, src, name, w + {key})
      {
        VisitedAboveIgnored(g, rank, src, name, v + {key}, w + {key});
      }
      var ds := StarDefiners(g, stars, name, v + {key});
      var es := StarDefiners(g, stars, name, w + {key});
      forall d
        ensures d in ds <==> d in es
      {
        StarDefinersAre(g, stars, name, v + {key}, d);
        StarDefinersAre(g, stars, name, w + {key}, d);
        assert forall src :: src in stars ==>
          (BranchGives(g, src, name, v + {key}, d) <==> BranchGives(g, src, name, w + {key}, d));
      }
      assert ds == es;
    }
  }

  /** A query from below does not see the record that is being built. */
  lemma {:induction false} OwnRecordUnseen(g: Graph, h: Graph, rank: Path -> nat, p: Path, m: Module, m': Module,
                                           from: Path, name: Name)
    requires SameBelow(g, h, rank, rank(p)) && from in g && rank(from) < rank(p)
    ensures Resolve(g[p := m], from, name, {}) == Resolve(h[p := m'], from, name, {})
  {
    assert SameBelow(g[p := m], h[p := m'], rank, rank(from) + 1);
    ResolveAgrees(g[p := m], h[p := m'], rank, from, name, {});
  }

  // ---------------------------------------------------------------- a statement depends only on what is below

  ghost predicate CanStep(prog: Program, g: Graph, rank: Path -> nat, p: Path, s: Statement) {
    s.Loads() ==> (s.from in prog <==> s.from in g) && (s.from in g ==> rank(s.from) < rank(p))
  }

  lemma {:induction false} BlameNamedAgrees(g: Graph, h: Graph, rank: Path -> nat, t: Module, m: Module, s: Statement,
                                            specs: seq<ImportSpec>)
    requires SameBelow(g, h, rank, rank(m.path)) && s.Import? && s.from in g && rank(s.from) < rank(m.path)
    ensures BlameNamed(g, t, m, s, specs) == BlameNamed(h, t, m, s, specs)
    decreases |specs|
  {
    if specs != [] {
      var last := |specs| - 1;
      BlameNamedAgrees(g, h, rank, t, m, s, specs[..last]);
      var m1 := BlameNamed(g, t, m, s, specs[..last]);
      OwnRecordUnseen(g, h, rank, m.path, m1, m1, s.from, specs[last].name);
    }
  }

  lemma {:induction false} ReexportAgrees(g: Graph, h: Graph, rank: Path -> nat, m: Module, s: Statement,
                                          spec: ReexportSpec)
    requires SameBelow(g, h, rank, rank(m.path)) && s.ExportFrom? && s.from in g && rank(s.from) < rank(m.path)
    ensures Reexport(g, m, s, spec) == Reexport(h, m, s, spec)
  {
    var m1 := m.(indirect := m.indirect[spec.exported := (g[s.from].path, spec.name)]);
    OwnRecordUnseen(g, h, rank, m.path, m1, m1, s.from, spec.name);
  }

  lemma {:induction false} ReexportAllAgrees(g: Graph, h: Graph, rank: Path -> nat, m: Module, s: Statement,
                                             specs: seq<ReexportSpec>)
    requires SameBelow(g, h, rank, rank(m.path)) && s.ExportFrom? && s.from in g && rank(s.from) < rank(m.path)
    ensures ReexportAll(g, m, s, specs) == ReexportAll(h, m, s, specs)
    decreases |specs|
  {
    if specs != [] {
      var last := |specs| - 1;
      ReexportAllAgrees(g, h, rank, m, s, specs[..last]);
      var m1 := ReexportAll(g, m, s, specs[..last]);
      assert SameBelow(g[m.path := m1], h[m.path := m1], rank, rank(m.path));
      ReexportAgrees(g[m.path := m1], h[m.path := m1], rank, m1, s, specs[last]);
    }
  }

  lemma {:induction false} AfterDefaultAgrees(g: Graph, h: Graph, rank: Path -> nat, m: Module, s: Statement)
    requires SameBelow(g, h, rank, rank(m.path)) && s.Import? && s.from in g && rank(s.from) < rank(m.path)
    ensures AfterDefault(g, m, s) == AfterDefault(h, m, s)
  {
    var m1 := if s.typeOnly then m else BlameIf(m, g[s.from].linkError);
    OwnRecordUnseen(g, h, rank, m.path, m1, m1, s.from, DEFAULT);
  }

  lemma {:induction false} ImportStepAgrees(g: Graph, h: Graph, rank: Path -> nat, m: Module, s: Statement)
    requires SameBelow(g, h, rank, rank(m.path)) && s.Import? && s.from in g && rank(s.from) < rank(m.path)
    ensures ImportStep(g, m, s) == ImportStep(h, m, s)
  {
    var p, m2 := m.path, AfterDefault(g, m, s);
    AfterDefaultAgrees(g, h, rank, m, s);
    assert SameBelow(g[p := m2], h[p := m2], rank, rank(p));
    BlameNamedAgrees(g[p := m2], h[p := m2], rank, g[s.from], m2, s, s.named);
  }

  lemma {:induction false} ExportFromStepAgrees(g: Graph, h: Graph, rank: Path -> nat, m: Module, s: Statement)
    requires s.ExportNamespace? || s.ExportStar? || s.ExportFrom?
    requires SameBelow(g, h, rank, rank(m.path)) && s.from in g && rank(s.from) < rank(m.path)
    ensures ExportFromStep(g, m, s) == ExportFromStep(h, m, s)
  {
    if s.ExportFrom? {
      var p := m.path;
      var m1 := BlameIf(m, g[s.from].linkError);
      assert SameBelow(g[p := m1], h[p := m1], rank, rank(p));
      ReexportAllAgrees(g[p := m1], h[p := m1], rank, m1, s, s.specs);
    }
  }

  lemma {:induction false} StepAgrees(prog: Program, g: Graph, h: Graph, rank: Path -> nat, m: Module, s: Statement)
    requires SameBelow(g, h, rank, rank(m.path))
    requires CanStep(prog, g, rank, m.path, s) && (s.Loads() && s.from !in prog ==> s.from !in h)
    requires m.path in prog
    ensures Step(g, m, s) == Step(h, m, s)
  {
    var p := m.path;
    if s.Loads() && s.from in g {
      assert SameBelow(g[p := m], h[p := m], rank, rank(p));
      if s.Import? {
        ImportStepAgrees(g[p := m], h[p := m], rank, m, s);
      } else {
        ExportFromStepAgrees(g[p := m], h[p := m], rank, m, s);
      }
    }
  }

  ghost predicate CanFold(prog: Program, g: Graph, rank: Path -> nat, p: Path, ss: seq<Statement>) {
    forall i :: 0 <= i < |ss| ==> CanStep(prog, g, rank, p, ss[i])
  }

  lemma {:induction false} FoldAgrees(prog: Program, g: Graph, h: Graph, rank: Path -> nat, m: Module,
                                      ss: seq<Statement>)
    requires SameBelow(g, h, rank, rank(m.path)) && m.path in prog && h.Keys <= prog.Keys
    requires CanFold(prog, g, rank, m.path, ss)
    ensures Fold(g, m, ss) == Fold(h, m, ss)
    decreases |ss|
  {
    if ss != [] {
      var last := |ss| - 1;
      FoldAgrees(prog, g, h, rank, m, ss[..last]);
      assert CanStep(prog, g, rank, m.path, ss[last]);
      StepAgrees(prog, g, h, rank, Fold(g, m, ss[..last]), ss[last]);
    }
  }

  // ---------------------------------------------------------------- what a record re-exports from

  lemma {:induction false} ReexportSources(g: Graph, rank: Path -> nat, m: Module, s: Statement,
                                           specs: seq<ReexportSpec>)
    requires SourcesDescend(g, rank, m) && s.ExportFrom? && s.from in g
    requires g[s.from].path == s.from != m.path && rank(s.from) < rank(m.path)
    ensures SourcesDescend(g, rank, ReexportAll(g, m, s, specs))
    decreases |specs|
  {
    if specs != [] {
      ReexportSources(g, rank, m, s, specs[..|specs|-1]);
    }
  }

  lemma {:induction false} BlameNamedSources(g: Graph, t: Module, m: Module, s: Statement, specs: seq<ImportSpec>)
    requires s.Import?
    ensures var r := BlameNamed(g, t, m, s, specs); r.stars == m.stars && r.indirect == m.indirect
    decreases |specs|
  {
    if specs != [] {
      BlameNamedSources(g, t, m, s, specs[..|specs|-1]);
    }
  }

  lemma {:induction false} ExportLocalsSources(m: Module, locals: seq<LocalSpec>)
    ensures var r := ExportLocals(m, locals); r.stars == m.stars && r.indirect == m.indirect
    decreases |locals|
  {
    if locals != [] {
      ExportLocalsSources(m, locals[..|locals|-1]);
    }
  }

  lemma {:induction false} HoistAllSources(m: Module, ss: seq<Statement>)
    ensures var r := HoistAll(m, ss); r.stars == m.stars && r.indirect == m.indirect
    decreases |ss|
  {
    if ss != [] {
      HoistAllSources(m, ss[..|ss|-1]);
    }
  }

  lemma {:induction false} ImportSources(g: Graph, rank: Path -> nat, m: Module, s: Statement)
    requires s.Import? && s.from in g && SourcesDescend(g, rank, m)
    ensures SourcesDescend(g, rank, ImportStep(g, m, s))
  {
    var m2 := AfterDefault(g, m, s);
    BlameNamedSources(g[m.path := m2], g[s.from], m2, s, s.named);
  }

  lemma {:induction false} LoadingStepSources(g: Graph, rank: Path -> nat, m: Module, s: Statement)
    requires s.Loads() && s.from in g
    requires SourcesDescend(g, rank, m) && g[s.from].path == s.from && rank(s.from) < rank(m.path)
    ensures SourcesDescend(g, rank, Step(g, m, s))
  {
    var h := g[m.path := m];
    assert h[s.from] == g[s.from];
    assert SourcesDescend(h, rank, m);
    if s.Import? {
      ImportSources(h, rank, m, s);
      assert Step(g, m, s) == ImportStep(h, m, s);
    } else if s.ExportFrom? {
      var m1 := BlameIf(m, h[s.from].linkError);
      ReexportSources(h[m.path := m1], rank, m1, s, s.specs);
    }
  }

  lemma {:induction false} StepSources(g: Graph, rank: Path -> nat, m: Module, s: Statement)
    requires SourcesDescend(g, rank, m)
    requires s.Loads() && s.from in g ==> g[s.from].path == s.from && rank(s.from) < rank(m.path)
    requires s.Loads() && s.from !in g ==> s.from != m.path
    ensures SourcesDescend(g, rank, Step(g, m, s))
  {
    if s.Loads() {
      if s.from in g { LoadingStepSources(g, rank, m, s); }
    } else if s.ExportLocal? {
      ExportLocalsSources(m, s.locals);
    }
  }
}
