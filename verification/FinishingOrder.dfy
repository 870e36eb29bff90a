/** The order in which modules finish, which later phases run them in. */
module FinishingOrder {
  import opened Linker
  import opened LinkedGraphs
  import opened ModuleGraph

  ghost predicate NoRepeats(order: seq<Path>) {
    forall i, j :: 0 <= i < j < |order| ==> order[i] != order[j]
  }

  ghost predicate Listed(st: State) {
    NoRepeats(st.order) && forall i :: 0 <= i < |st.order| ==> st.order[i] in st.mods
  }

  /** The list only grows, by modules that were not known before. */
  ghost predicate Grows(st: State, st': State) {
    && st.order <= st'.order && st.mods.Keys <= st'.mods.Keys
    && forall i :: |st.order| <= i < |st'.order| ==> st'.order[i] !in st.mods
  }

  // ---------------------------------------------------------------- every module once, cycles or not

  lemma {:induction false} GrowsTransitive(a: State, b: State, c: State)
    requires Grows(a, b) && Grows(b, c)
    ensures Grows(a, c)
  {
    forall i | |a.order| <= i < |c.order|
      ensures c.order[i] !in a.mods
    {
      if i < |b.order| { assert c.order[i] == b.order[i]; }
    }
  }

  lemma {:induction false} LoadLists(prog: Program, st: State, p: Path)
    requires Listed(st)
    ensures Listed(Load(prog, st, p)) && Grows(st, Load(prog, st, p))
    decreases prog.Keys - st.mods.Keys, 0
  {
    if p in prog && p !in st.mods && prog[p].Code? {
      var started := st.(mods := st.mods[p := HoistAll(Bare(p, prog[p]), Body(prog[p]))]);
      assert prog.Keys - started.mods.Keys < prog.Keys - st.mods.Keys by { assert p in prog.Keys - st.mods.Keys; }
      VisitAllLists(prog, started, p, Body(prog[p]));
      var done := VisitAll(prog, started, p, Body(prog[p]));
      forall i | 0 <= i < |done.order|
        ensures done.order[i] != p
      {
        if i < |st.order| { assert done.order[i] == st.order[i]; }
      }
    }
  }

  lemma {:induction false} VisitAllLists(prog: Program, st: State, p: Path, ss: seq<Statement>)
    requires p in st.mods && Listed(st)
    ensures var st' := VisitAll(prog, st, p, ss); Listed(st') && Grows(st, st')
    decreases prog.Keys - st.mods.Keys, |ss| + 2
  {
    if ss != [] {
      var before := VisitAll(prog, st, p, ss[..|ss|-1]);
      VisitAllLists(prog, st, p, ss[..|ss|-1]);
      assert prog.Keys - before.mods.Keys <= prog.Keys - st.mods.Keys;
      VisitLists(prog, before, p, ss[|ss|-1]);
      GrowsTransitive(st, before, Visit(prog, before, p, ss[|ss|-1]));
    }
  }

  lemma {:induction false} VisitLists(prog: Program, st: State, p: Path, s: Statement)
    requires p in st.mods && Listed(st)
    ensures var st' := Visit(prog, st, p, s); Listed(st') && Grows(st, st')
    decreases prog.Keys - st.mods.Keys, 1
  {
    if s.Loads() { LoadLists(prog, st, s.from); }
  }

  // ---------------------------------------------------------------- dependencies first

  /** `order[i]` loads `q`, a file with a body of its own or one that failed to parse. */
  predicate Needs(prog: Program, p: Path, q: Path) {
    p in prog && q in prog && !prog[q].Opaque? && exists s :: s in Body(prog[p]) && s.Loads() && s.from == q
  }

  ghost predicate DependenciesFirst(prog: Program, order: seq<Path>) {
    forall i, q :: 0 <= i < |order| && Needs(prog, order[i], q) ==> q in order[..i]
  }

  /** Every known file of rank below `r` that belongs in the list is in it. */
  ghost predicate ListedBelow(prog: Program, st: State, rank: Path -> nat, r: nat) {
    forall q :: q in st.mods && q in prog && !prog[q].Opaque? && rank(q) < r ==> q in st.order
  }

  ghost predicate Ordered(prog: Program, st: State, rank: Path -> nat, r: nat) {
    Listed(st) && DependenciesFirst(prog, st.order) && ListedBelow(prog, st, rank, r)
  }

  ghost predicate NewBelow(st: State, st': State, rank: Path -> nat, r: nat) {
    forall q :: q in st'.mods && q !in st.mods ==> rank(q) < r
  }

  lemma {:induction false} NewBelowTransitive(a: State, b: State, c: State, rank: Path -> nat, r: nat)
    requires NewBelow(a, b, rank, r) && NewBelow(b, c, rank, r)
    ensures NewBelow(a, c, rank, r)
  {}

  /** What the first `n` statements of `p` load is known. */
  ghost predicate LoadsKnown(prog: Program, st: State, p: Path, n: nat)
    requires p in prog && n <= |Body(prog[p])|
  {
    forall j :: 0 <= j < n && Body(prog[p])[j].Loads() && Body(prog[p])[j].from in prog ==>
      Body(prog[p])[j].from in st.mods
  }

  lemma {:induction false} LoadOrders(prog: Program, st: State, p: Path, rank: Path -> nat, r: nat)
    requires Acyclic(prog, rank) && (p in prog ==> rank(p) < r) && Ordered(prog, st, rank, r)
    ensures var st' := Load(prog, st, p);
            Ordered(prog, st', rank, r) && NewBelow(st, st', rank, r)
    decreases prog.Keys - st.mods.Keys, 0
  {
    LoadLists(prog, st, p);
    if p in prog && p !in st.mods && prog[p].Code? {
      var started := st.(mods := st.mods[p := HoistAll(Bare(p, prog[p]), Body(prog[p]))]);
      assert prog.Keys - started.mods.Keys < prog.Keys - st.mods.Keys by { assert p in prog.Keys - st.mods.Keys; }
      var body := Body(prog[p]);
      assert body[..|body|] == body;
      VisitAllOrders(prog, started, p, |body|, rank);
      VisitAllLists(prog, started, p, body);
      FinishOrders(prog, st, VisitAll(prog, started, p, body), p, rank, r);
    } else if p in prog && p !in st.mods && prog[p].Broken? {
      AppendKeeps(prog, st.order, p);
    }
  }

  lemma {:induction false} FinishOrders(prog: Program, before: State, done: State, p: Path, rank: Path -> nat, r: nat)
    requires Acyclic(prog, rank) && p in prog && rank(p) < r && Ordered(prog, before, rank, r)
    requires Ordered(prog, done, rank, rank(p)) && before.order <= done.order
    requires forall q :: q in done.mods && q !in before.mods ==> q == p || rank(q) < rank(p)
    requires LoadsKnown(prog, done, p, |Body(prog[p])|)
    ensures DependenciesFirst(prog, done.order + [p])
    ensures forall q :: q in done.mods && q in prog && !prog[q].Opaque? && rank(q) < r ==> q in done.order + [p]
  {
    NeededAreListed(prog, done, p, rank);
    AppendKeeps(prog, done.order, p);
    forall q | q in done.mods && q in prog && !prog[q].Opaque? && rank(q) < r
      ensures q in done.order + [p]
    {
      if q in before.mods {
        var i :| 0 <= i < |before.order| && before.order[i] == q;
        assert done.order[i] == q;
      }
    }
  }

  lemma {:induction false} NeededAreListed(prog: Program, st: State, p: Path, rank: Path -> nat)
    requires Acyclic(prog, rank) && p in prog && ListedBelow(prog, st, rank, rank(p))
    requires LoadsKnown(prog, st, p, |Body(prog[p])|)
    ensures forall q :: Needs(prog, p, q) ==> q in st.order
  {
    var body := Body(prog[p]);
    forall q | Needs(prog, p, q)
      ensures q in st.order
    {
      var s :| s in body && s.Loads() && s.from == q;
      var j :| 0 <= j < |body| && body[j] == s;
      assert Descends(prog, rank, p, body[j]);
    }
  }

  lemma {:induction false} AppendKeeps(prog: Program, order: seq<Path>, p: Path)
    requires DependenciesFirst(prog, order) && forall q :: Needs(prog, p, q) ==> q in order
    ensures DependenciesFirst(prog, order + [p])
  {
    forall i, q | 0 <= i < |order + [p]| && Needs(prog, (order + [p])[i], q)
      ensures q in (order + [p])[..i]
    {
      if i < |order| { assert (order + [p])[..i] == order[..i]; } else { assert (order + [p])[..i] == order; }
    }
  }

  lemma {:induction false} OneMoreVisited(prog: Program, st: State, p: Path, body: seq<Statement>, n: nat)
    requires 0 < n <= |body| && p in st.mods
    ensures var before := VisitAll(prog, st, p, body[..n-1]);
            && VisitAll(prog, st, p, body[..n]) == Visit(prog, before, p, body[n-1])
            && prog.Keys - before.mods.Keys <= prog.Keys - st.mods.Keys
  {
    assert body[..n][..n-1] == body[..n-1] && body[..n][n-1] == body[n-1];
  }

  lemma {:induction false} VisitAllOrders(prog: Program, st: State, p: Path, n: nat, rank: Path -> nat)
    requires Acyclic(prog, rank) && p in prog && n <= |Body(prog[p])| && p in st.mods
    requires Ordered(prog, st, rank, rank(p))
    ensures var st' := VisitAll(prog, st, p, Body(prog[p])[..n]);
            && Ordered(prog, st', rank, rank(p)) && LoadsKnown(prog, st', p, n)
            && NewBelow(st, st', rank, rank(p))
    decreases prog.Keys - st.mods.Keys, n + 2
  {
    if n > 0 {
      var body := Body(prog[p]);
      VisitAllOrders(prog, st, p, n - 1, rank);
      var before := VisitAll(prog, st, p, body[..n-1]);
      OneMoreVisited(prog, st, p, body, n);
      VisitOrders(prog, before, p, n, rank);
      NewBelowTransitive(st, before, Visit(prog, before, p, body[n-1]), rank, rank(p));
    }
  }

  lemma {:induction false} VisitOrders(prog: Program, st: State, p: Path, n: nat, rank: Path -> nat)
    requires Acyclic(prog, rank) && p in prog && 0 < n <= |Body(prog[p])| && p in st.mods
    requires Ordered(prog, st, rank, rank(p)) && LoadsKnown(prog, st, p, n - 1)
    ensures var st' := Visit(prog, st, p, Body(prog[p])[n-1]);
            && Ordered(prog, st', rank, rank(p)) && LoadsKnown(prog, st', p, n)
            && NewBelow(st, st', rank, rank(p))
    decreases prog.Keys - st.mods.Keys, 1
  {
    var s := Body(prog[p])[n-1];
    assert Descends(prog, rank, p, s);
    VisitLists(prog, st, p, s);
    if s.Loads() { LoadOrders(prog, st, s.from, rank, rank(p)); }
  }

  // ---------------------------------------------------------------- exactly the modules that run

  /** What was added between the two states is listed there, unless it has no body and parsed; nothing else is. */
  ghost predicate ListsExactly(prog: Program, st: State, st': State) {
    && st.order <= st'.order && st.mods.Keys <= st'.mods.Keys
    && (forall q :: q in st'.mods && q !in st.mods ==>
          q in prog && (!prog[q].Opaque? ==> q in st'.order))
    && (forall i :: |st.order| <= i < |st'.order| ==> st'.order[i] in prog && !prog[st'.order[i]].Opaque?)
  }

  lemma {:induction false} ListsExactlyThen(prog: Program, a: State, b: State, c: State)
    requires ListsExactly(prog, a, b) && ListsExactly(prog, b, c)
    ensures ListsExactly(prog, a, c)
  {
    forall q | q in b.order
      ensures q in c.order
    {
      var i :| 0 <= i < |b.order| && b.order[i] == q;
      assert c.order[i] == q;
    }
    forall i | |a.order| <= i < |c.order|
      ensures c.order[i] in prog && !prog[c.order[i]].Opaque?
    {
      if i < |b.order| { assert c.order[i] == b.order[i]; }
    }
  }

  lemma {:induction false} LoadListsExactly(prog: Program, st: State, p: Path)
    ensures ListsExactly(prog, st, Load(prog, st, p))
    decreases prog.Keys - st.mods.Keys, 0
  {
    if p in prog && p !in st.mods && prog[p].Code? {
      var started := st.(mods := st.mods[p := HoistAll(Bare(p, prog[p]), Body(prog[p]))]);
      assert prog.Keys - started.mods.Keys < prog.Keys - st.mods.Keys by { assert p in prog.Keys - st.mods.Keys; }
      VisitAllListsExactly(prog, started, p, Body(prog[p]));
      var done := VisitAll(prog, started, p, Body(prog[p]));
      assert forall q :: q in done.order ==> q in done.order + [p];
    }
  }

  lemma {:induction false} VisitAllListsExactly(prog: Program, st: State, p: Path, ss: seq<Statement>)
    requires p in st.mods
    ensures ListsExactly(prog, st, VisitAll(prog, st, p, ss))
    decreases prog.Keys - st.mods.Keys, |ss| + 2
  {
    if ss != [] {
      var before := VisitAll(prog, st, p, ss[..|ss|-1]);
      VisitAllListsExactly(prog, st, p, ss[..|ss|-1]);
      assert prog.Keys - before.mods.Keys <= prog.Keys - st.mods.Keys;
      var s := ss[|ss|-1];
      if s.Loads() { LoadListsExactly(prog, before, s.from); }
      assert ListsExactly(prog, before, Visit(prog, before, p, s));
      ListsExactlyThen(prog, st, before, Visit(prog, before, p, s));
    }
  }

  // ---------------------------------------------------------------- the entry file

  /** Every module finishes once, whatever the graph. */
  lemma {:induction false} FinishesOnce(prog: Program, entry: Path)
    requires entry in prog && prog[entry].Code?
    ensures var order := AnalyzeEntry(prog, entry).0.order; NoRepeats(order) && order[|order|-1] == entry
  {
    var started := State(map[entry := HoistAll(Bare(entry, prog[entry]), Body(prog[entry]))], []);
    VisitAllLists(prog, started, entry, Body(prog[entry]));
  }

  /** With no cycle in the import graph, every module finishes after all the modules it loads. */
  lemma {:induction false} FinishesInDependencyOrder(prog: Program, entry: Path, rank: Path -> nat)
    requires entry in prog && prog[entry].Code? && Acyclic(prog, rank)
    ensures DependenciesFirst(prog, AnalyzeEntry(prog, entry).0.order)
  {
    var body := Body(prog[entry]);
    var started := State(map[entry := HoistAll(Bare(entry, prog[entry]), body)], []);
    assert body[..|body|] == body;
    VisitAllOrders(prog, started, entry, |body|, rank);
    var done := VisitAll(prog, started, entry, body);
    NeededAreListed(prog, done, entry, rank);
    AppendKeeps(prog, done.order, entry);
  }

  /** The list is exactly the modules loaded that have a body, and those that failed to parse. */
  lemma {:induction false} FinishesAll(prog: Program, entry: Path)
    requires entry in prog && prog[entry].Code?
    ensures var st := AnalyzeEntry(prog, entry).0;
            forall q :: q in st.order <==> q in st.mods && q in prog && !prog[q].Opaque?
  {
    var started := State(map[entry := HoistAll(Bare(entry, prog[entry]), Body(prog[entry]))], []);
    VisitAllListsExactly(prog, started, entry, Body(prog[entry]));
    VisitAllLists(prog, started, entry, Body(prog[entry]));
    var done := VisitAll(prog, started, entry, Body(prog[entry]));
    forall q
      ensures q in done.order + [entry] <==> q in done.mods && q in prog && !prog[q].Opaque?
    {
      if q in done.order {
        var i :| 0 <= i < |done.order| && done.order[i] == q;
      }
    }
  }
}
