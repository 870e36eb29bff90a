/** Loading an acyclic program, in whatever order its statements ask for, links every module it reaches. */
module Loading {
  import opened ModuleGraph
  import opened Linker
  import opened LinkedGraphs

  /** Holds between statements: records sit under their paths and re-export from below, and every module
      below rank `r` is finished.  Modules in progress have rank `r` or more. */
  ghost predicate Sound(prog: Program, g: Graph, rank: Path -> nat, r: nat) {
    && g.Keys <= prog.Keys
    && Placed(g, rank)
    && (forall q :: q in g && rank(q) < r ==> Settled(prog, g, q))
  }

  lemma {:induction false} AcyclicCanFold(prog: Program, g: Graph, rank: Path -> nat, p: Path, ss: seq<Statement>)
    requires Acyclic(prog, rank) && p in prog && ss <= Body(prog[p])
    requires TargetsLoaded(prog, g, ss) && g.Keys <= prog.Keys
    ensures CanFold(prog, g, rank, p, ss)
  {
    forall i | 0 <= i < |ss|
      ensures CanStep(prog, g, rank, p, ss[i])
    {
      assert Descends(prog, rank, p, Body(prog[p])[i]);
    }
  }

  lemma {:induction false} SettledPersists(prog: Program, g: Graph, h: Graph, rank: Path -> nat, q: Path)
    requires Acyclic(prog, rank) && Settled(prog, g, q)
    requires SameBelow(g, h, rank, rank(q) + 1) && g.Keys <= h.Keys <= prog.Keys
    ensures Settled(prog, h, q)
  {
    AcyclicCanFold(prog, g, rank, q, Body(prog[q]));
    FoldAgrees(prog, g, h, rank, Started(prog, q), Body(prog[q]));
  }

  /** Modules added by a load have at most the rank of the loaded file. */
  ghost predicate AddsUpTo(g: Graph, h: Graph, rank: Path -> nat, r: nat) {
    && g.Keys <= h.Keys
    && forall q :: q in h && q !in g ==> rank(q) < r
  }

  lemma {:induction false} LoadSettles(prog: Program, st: State, p: Path, rank: Path -> nat, r: nat)
    requires Acyclic(prog, rank) && rank(p) < r && Sound(prog, st.mods, rank, r)
    ensures var g := Load(prog, st, p).mods;
            Sound(prog, g, rank, r) && AddsUpTo(st.mods, g, rank, rank(p) + 1)
    decreases prog.Keys - st.mods.Keys, 0, 1
  {
    if p in prog && p !in st.mods {
      if prog[p].Code? {
        CodeSettles(prog, st, p, rank, r);
      } else {
        OpaqueSettles(prog, st.mods, rank, p, r);
      }
    }
  }

  lemma {:induction false} CodeSettles(prog: Program, st: State, p: Path, rank: Path -> nat, r: nat)
    requires Acyclic(prog, rank) && rank(p) < r && Sound(prog, st.mods, rank, r)
    requires p in prog && p !in st.mods && prog[p].Code?
    ensures var g := Load(prog, st, p).mods;
            Sound(prog, g, rank, r) && AddsUpTo(st.mods, g, rank, rank(p) + 1)
    decreases prog.Keys - st.mods.Keys, 0, 0
  {
    var started := State(st.mods[p := Started(prog, p)], st.order);
    assert prog.Keys - started.mods.Keys < prog.Keys - st.mods.Keys by { assert p in prog.Keys - st.mods.Keys; }
    SoundStart(prog, st.mods, rank, p);
    VisitAllSettles(prog, started, p, |Body(prog[p])|, rank);
    assert Body(prog[p])[..|Body(prog[p])|] == Body(prog[p]);
    var done := VisitAll(prog, started, p, Body(prog[p]));
    FinishSettles(prog, st.mods, done.mods, rank, p, r);
  }

  lemma {:induction false} SoundStart(prog: Program, g: Graph, rank: Path -> nat, p: Path)
    requires Acyclic(prog, rank) && p in prog && p !in g && Sound(prog, g, rank, rank(p))
    ensures Sound(prog, g[p := Started(prog, p)], rank, rank(p))
  {
    HoistAllSources(Bare(p, prog[p]), Body(prog[p]));
    SoundUpdate(prog, g, rank, p, Started(prog, p));
  }

  /** Records sit under their own paths and re-export from below. */
  ghost predicate Placed(g: Graph, rank: Path -> nat) {
    forall q :: q in g ==> g[q].path == q && SourcesDescend(g, rank, g[q])
  }

  lemma {:induction false} PlacedUpdate(g: Graph, rank: Path -> nat, p: Path, m: Module)
    requires Placed(g, rank) && m.path == p && SourcesDescend(g, rank, m)
    ensures Placed(g[p := m], rank)
  {
    var h := g[p := m];
    forall q | q in h
      ensures h[q].path == q && SourcesDescend(h, rank, h[q])
    {
      assert SourcesDescend(g, rank, h[q]);
    }
  }

  /** Writing a record of `p` that re-exports from below leaves everything below `p` finished. */
  lemma {:induction false} SoundUpdate(prog: Program, g: Graph, rank: Path -> nat, p: Path, m: Module)
    requires Acyclic(prog, rank) && p in prog && Sound(prog, g, rank, rank(p))
    requires m.path == p && SourcesDescend(g, rank, m)
    ensures Sound(prog, g[p := m], rank, rank(p))
  {
    var h := g[p := m];
    PlacedUpdate(g, rank, p, m);
    forall q | q in h && rank(q) < rank(p)
      ensures Settled(prog, h, q)
    {
      SettledPersists(prog, g, h, rank, q);
    }
  }

  lemma {:induction false} OpaqueSettles(prog: Program, g: Graph, rank: Path -> nat, p: Path, r: nat)
    requires Acyclic(prog, rank) && p in prog && p !in g && !prog[p].Code? && rank(p) < r
    requires Sound(prog, g, rank, r)
    ensures Sound(prog, g[p := Started(prog, p)], rank, r)
  {
    var h := g[p := Started(prog, p)];
    SoundStart(prog, g, rank, p);
    OpaqueIsSettled(prog, h, p);
    EarlierStaySettled(prog, g, h, rank, r);
    RaiseRank(prog, h, rank, rank(p), r);
  }

  lemma {:induction false} OpaqueIsSettled(prog: Program, g: Graph, p: Path)
    requires p in prog && !prog[p].Code? && p in g && g[p] == Started(prog, p)
    ensures Settled(prog, g, p)
  {}

  /** `before` is the graph the load started from, `g` the graph after the body of `p`. */
  lemma {:induction false} FinishSettles(prog: Program, before: Graph, g: Graph, rank: Path -> nat, p: Path, r: nat)
    requires Acyclic(prog, rank) && p in prog && prog[p].Code? && rank(p) < r
    requires Sound(prog, before, rank, r) && p !in before
    requires Sound(prog, g, rank, rank(p)) && p in g && TargetsLoaded(prog, g, Body(prog[p]))
    requires g[p] == Fold(g, Started(prog, p), Body(prog[p]))
    requires forall q :: q in before ==> q in g && g[q] == before[q]
    requires forall q :: q in g && q !in before && q != p ==> rank(q) < rank(p)
    ensures Sound(prog, g[p := Finish(g[p])], rank, r)
  {
    var h := g[p := Finish(g[p])];
    SoundUpdate(prog, g, rank, p, Finish(g[p]));
    FinishedIsSettled(prog, g, rank, p);
    EarlierStaySettled(prog, before, h, rank, r);
    RaiseRank(prog, h, rank, rank(p), r);
  }

  lemma {:induction false} RaiseRank(prog: Program, g: Graph, rank: Path -> nat, low: nat, r: nat)
    requires Sound(prog, g, rank, low)
    requires forall q :: q in g && low <= rank(q) < r ==> Settled(prog, g, q)
    ensures Sound(prog, g, rank, r)
  {
    forall q | q in g && rank(q) < r
      ensures Settled(prog, g, q)
    {
      assert rank(q) < low || low <= rank(q) < r;
    }
  }

  lemma {:induction false} EarlierStaySettled(prog: Program, before: Graph, h: Graph, rank: Path -> nat, r: nat)
    requires Acyclic(prog, rank) && Sound(prog, before, rank, r) && h.Keys <= prog.Keys
    requires forall q :: q in before ==> q in h && h[q] == before[q]
    ensures forall q :: q in before && rank(q) < r ==> Settled(prog, h, q)
  {
    forall q | q in before && rank(q) < r
      ensures Settled(prog, h, q)
    {
      SoundSame(prog, before, h, rank, r, rank(q) + 1);
      SettledPersists(prog, before, h, rank, q);
    }
  }

  lemma {:induction false} SoundSame(prog: Program, g: Graph, h: Graph, rank: Path -> nat, r: nat, b: nat)
    requires Sound(prog, g, rank, r)
    requires forall q :: q in g && rank(q) < b ==> q in h && h[q] == g[q]
    ensures SameBelow(g, h, rank, b)
  {}

  lemma {:induction false} FinishedIsSettled(prog: Program, g: Graph, rank: Path -> nat, p: Path)
    requires Acyclic(prog, rank) && p in prog && prog[p].Code?
    requires Sound(prog, g, rank, rank(p)) && p in g && TargetsLoaded(prog, g, Body(prog[p]))
    requires g[p] == Fold(g, Started(prog, p), Body(prog[p]))
    ensures Settled(prog, g[p := Finish(g[p])], p)
  {
    var h := g[p := Finish(g[p])];
    AcyclicCanFold(prog, g, rank, p, Body(prog[p]));
    SoundSame(prog, g, h, rank, rank(p), rank(p));
    FoldAgrees(prog, g, h, rank, Started(prog, p), Body(prog[p]));
  }

  /** After the first `n` statements of `p`, its record is their fold over the current graph `g`; the visit
      started from `g0`. */
  ghost predicate Progress(prog: Program, g0: Graph, g: Graph, rank: Path -> nat, p: Path, n: nat)
    requires p in prog && n <= |Body(prog[p])|
  {
    && p in g && Sound(prog, g, rank, rank(p)) && AddsUpTo(g0, g, rank, rank(p))
    && TargetsLoaded(prog, g, Body(prog[p])[..n])
    && g[p] == Fold(g, Started(prog, p), Body(prog[p])[..n])
  }

  lemma {:induction false} VisitAllSettles(prog: Program, st: State, p: Path, n: nat, rank: Path -> nat)
    requires Acyclic(prog, rank) && p in prog && n <= |Body(prog[p])|
    requires p in st.mods && st.mods[p] == Started(prog, p) && Sound(prog, st.mods, rank, rank(p))
    ensures Progress(prog, st.mods, VisitAll(prog, st, p, Body(prog[p])[..n]).mods, rank, p, n)
    decreases prog.Keys - st.mods.Keys, n + 3
  {
    if n > 0 {
      var body := Body(prog[p]);
      assert body[..n][..n-1] == body[..n-1] && body[..n][n-1] == body[n-1];
      VisitAllSettles(prog, st, p, n - 1, rank);
      var before := VisitAll(prog, st, p, body[..n-1]);
      assert prog.Keys - before.mods.Keys <= prog.Keys - st.mods.Keys;
      VisitSettles(prog, st.mods, before, p, n, rank);
    }
  }

  lemma {:induction false} VisitSettles(prog: Program, g0: Graph, before: State, p: Path, n: nat, rank: Path -> nat)
    requires Acyclic(prog, rank) && p in prog && 0 < n <= |Body(prog[p])|
    requires Progress(prog, g0, before.mods, rank, p, n - 1)
    ensures Progress(prog, g0, Visit(prog, before, p, Body(prog[p])[n-1]).mods, rank, p, n)
    decreases prog.Keys - before.mods.Keys, 2
  {
    var s := Body(prog[p])[n-1];
    var loaded := if s.Loads() then Load(prog, before, s.from) else before;
    TargetLoads(prog, before, p, n, rank);
    TargetsStay(prog, before.mods, loaded.mods, rank, p, n);
    StepSettles(prog, loaded.mods, rank, p, n);
    AddsMore(g0, before.mods, loaded.mods, rank, rank(p));
    AddsMore(g0, loaded.mods, loaded.mods[p := Step(loaded.mods, loaded.mods[p], s)], rank, rank(p));
  }

  lemma {:induction false} AddsMore(g0: Graph, g: Graph, h: Graph, rank: Path -> nat, r: nat)
    requires AddsUpTo(g0, g, rank, r) && AddsUpTo(g, h, rank, r)
    ensures AddsUpTo(g0, h, rank, r)
  {}

  lemma {:induction false} TargetLoads(prog: Program, before: State, p: Path, n: nat, rank: Path -> nat)
    requires Acyclic(prog, rank) && p in prog && 0 < n <= |Body(prog[p])|
    requires Sound(prog, before.mods, rank, rank(p))
    ensures var s := Body(prog[p])[n-1];
            var g := if s.Loads() then Load(prog, before, s.from).mods else before.mods;
            && Sound(prog, g, rank, rank(p)) && AddsUpTo(before.mods, g, rank, rank(p))
            && (s.Loads() && s.from in prog ==> s.from in g)
    decreases prog.Keys - before.mods.Keys, 1
  {
    var s := Body(prog[p])[n-1];
    assert Descends(prog, rank, p, s);
    if s.Loads() && s.from in prog { LoadSettles(prog, before, s.from, rank, rank(p)); }
  }

  /** Loading the target of statement `n` leaves the fold of the statements before it as it was. */
  lemma {:induction false} TargetsStay(prog: Program, g: Graph, h: Graph, rank: Path -> nat, p: Path, n: nat)
    requires Acyclic(prog, rank) && p in prog && 0 < n <= |Body(prog[p])|
    requires Sound(prog, g, rank, rank(p)) && TargetsLoaded(prog, g, Body(prog[p])[..n-1])
    requires g.Keys <= h.Keys <= prog.Keys && forall q :: q in g ==> h[q] == g[q]
    requires var s := Body(prog[p])[n-1]; s.Loads() && s.from in prog ==> s.from in h
    ensures TargetsLoaded(prog, h, Body(prog[p])[..n])
    ensures var ss := Body(prog[p])[..n-1]; Fold(h, Started(prog, p), ss) == Fold(g, Started(prog, p), ss)
  {
    AcyclicCanFold(prog, g, rank, p, Body(prog[p])[..n-1]);
    SoundSame(prog, g, h, rank, rank(p), rank(p));
    FoldAgrees(prog, g, h, rank, Started(prog, p), Body(prog[p])[..n-1]);
    forall i | 0 <= i < n && Body(prog[p])[i].Loads()
      ensures Body(prog[p])[i].from in prog <==> Body(prog[p])[i].from in h
    {
      if i < n - 1 { assert Body(prog[p])[..n-1][i] == Body(prog[p])[i]; }
    }
  }

  lemma {:induction false} StepSettles(prog: Program, g: Graph, rank: Path -> nat, p: Path, n: nat)
    requires Acyclic(prog, rank) && p in prog && 0 < n <= |Body(prog[p])|
    requires Sound(prog, g, rank, rank(p)) && p in g && TargetsLoaded(prog, g, Body(prog[p])[..n])
    requires g[p] == Fold(g, Started(prog, p), Body(prog[p])[..n-1])
    ensures var h := g[p := Step(g, g[p], Body(prog[p])[n-1])];
            && Sound(prog, h, rank, rank(p))
            && h[p] == Fold(h, Started(prog, p), Body(prog[p])[..n])
  {
    var body := Body(prog[p]);
    var s := body[n-1];
    var h := g[p := Step(g, g[p], s)];
    assert body[..n][..n-1] == body[..n-1];
    assert body[..n][n-1] == s;
    AcyclicCanFold(prog, g, rank, p, body[..n]);
    assert CanStep(prog, g, rank, p, s);
    StepSources(g, rank, g[p], s);
    SoundUpdate(prog, g, rank, p, Step(g, g[p], s));
    FoldAgrees(prog, g, h, rank, Started(prog, p), body[..n]);
  }

  /** Loading one file of an acyclic program into an empty table leaves a linked graph around it. */
  lemma {:induction false} LoadLinks(prog: Program, p: Path, rank: Path -> nat)
    requires Acyclic(prog, rank)
    ensures var g := Load(prog, EMPTY, p).mods;
            && Linked(prog, g) && Sound(prog, g, rank, rank(p) + 1)
            && (p in prog ==> p in g)
  {
    LoadSettles(prog, EMPTY, p, rank, rank(p) + 1);
  }
}
