/** Which link error a module, and finally the entry, ends up with. */
module LinkErrors {
  import opened ModuleGraph
  import opened ResolveExport
  import opened Linker
  import opened LinkedGraphs
  import opened Loading

  /** The first message that is not empty. */
  function First(messages: seq<string>): string {
    if messages == [] then "" else if messages[0] != "" then messages[0] else First(messages[1..])
  }

  lemma {:induction false} FirstOfTwo(xs: seq<string>, ys: seq<string>)
    ensures First(xs + ys) == if First(xs) != "" then First(xs) else First(ys)
    decreases |xs|
  {
    if xs == [] {
      assert xs + ys == ys;
    } else {
      FirstOfTwo(xs[1..], ys);
      assert (xs + ys)[1..] == xs[1..] + ys;
    }
  }

  /** What counts of each part is its first message. */
  lemma {:induction false} FirstOfParts(a: seq<string>, b: seq<string>, a': seq<string>, b': seq<string>,
                                        c: seq<string>)
    requires First(a) == First(a') && First(b) == First(b')
    ensures First(a + (b + c)) == First(a' + (b' + c))
  {
    FirstOfTwo(b, c);
    FirstOfTwo(b', c);
    FirstOfTwo(a, b + c);
    FirstOfTwo(a', b' + c);
  }

  // ---------------------------------------------------------------- errors of one statement

  function NamedErrors(g: Graph, t: Module, s: Statement, specs: seq<ImportSpec>): seq<string>
    requires s.Import?
  {
    if specs == [] then []
    else NamedErrors(g, t, s, specs[..|specs|-1]) + [NamedImportError(g, t, s, specs[|specs|-1])]
  }

  function ReexportErrors(g: Graph, t: Module, s: Statement, specs: seq<ReexportSpec>): seq<string>
    requires s.ExportFrom?
  {
    if specs == [] then []
    else ReexportErrors(g, t, s, specs[..|specs|-1]) + [ReexportError(g, t, s, specs[|specs|-1])]
  }

  /** The failed bindings of one statement, in order; "" for a binding that links. */
  function OwnErrors(g: Graph, s: Statement): seq<string> {
    if !s.Loads() || s.from !in g then []
    else match s
      case Import(_, _, _, _, named) =>
        [DefaultImportError(g, g[s.from], s)] + NamedErrors(g, g[s.from], s, named)
      case ExportFrom(_, _, specs) => ReexportErrors(g, g[s.from], s, specs)
      case _ => []
  }

  function PassedOn(g: Graph, s: Statement): seq<string> {
    if s.Poisons() && s.from in g then [g[s.from].linkError] else []
  }

  lemma {:induction false} BlameIsFirst(m: Module, message: string)
    ensures BlameIf(m, message).linkError == First([m.linkError] + [message])
  {
    assert First([message]) == message;
    FirstOfTwo([m.linkError], [message]);
  }

  lemma {:induction false} FirstChain(a: string, xs: seq<string>, ys: seq<string>)
    ensures First([First([a] + xs)] + ys) == First([a] + (xs + ys))
  {
    var b := First([a] + xs);
    FirstOfTwo([b], ys);
    FirstOfTwo([a] + xs, ys);
    assert [a] + xs + ys == [a] + (xs + ys);
    assert First([b]) == b;
  }

  lemma {:induction false} FirstAlone(a: string)
    ensures First([a] + []) == a
  {
    assert [a] + [] == [a];
    assert First([a]) == a;
  }

  lemma {:induction false} NamedBlame(g: Graph, rank: Path -> nat, t: Module, m: Module, s: Statement,
                                      specs: seq<ImportSpec>)
    requires s.Import? && s.from in g && t == g[s.from]
    requires SameBelow(g, g, rank, rank(m.path)) && rank(s.from) < rank(m.path)
    ensures BlameNamed(g[m.path := m], t, m, s, specs).linkError == First([m.linkError] + NamedErrors(g, t, s, specs))
    decreases |specs|
  {
    if specs == [] {
      FirstAlone(m.linkError);
    } else {
      var g', last := g[m.path := m], |specs| - 1;
      NamedBlame(g, rank, t, m, s, specs[..last]);
      var m1 := BlameNamed(g', t, m, s, specs[..last]);
      assert g'[m.path := m1] == g[m.path := m1];
      UnseenFrom(g, rank, m.path, m1, s.from, specs[last].name);
      var err := NamedImportError(g, t, s, specs[last]);
      BlameIsFirst(m1, err);
      FirstChain(m.linkError, NamedErrors(g, t, s, specs[..last]), [err]);
    }
  }

  lemma {:induction false} UnseenFrom(g: Graph, rank: Path -> nat, p: Path, m: Module, from: Path, name: Name)
    requires SameBelow(g, g, rank, rank(p)) && from in g && rank(from) < rank(p)
    ensures Resolve(g[p := m], from, name, {}) == Resolve(g, from, name, {})
  {
    if p in g {
      OwnRecordUnseen(g, g, rank, p, m, g[p], from, name);
      assert g[p := g[p]] == g;
    } else {
      assert SameBelow(g, g[p := m], rank, rank(from) + 1);
      ResolveAgrees(g, g[p := m], rank, from, name, {});
    }
  }

  lemma {:induction false} ReexportBlame(g: Graph, rank: Path -> nat, m: Module, s: Statement, specs: seq<ReexportSpec>)
    requires s.ExportFrom? && s.from in g
    requires SameBelow(g, g, rank, rank(m.path)) && rank(s.from) < rank(m.path)
    ensures ReexportAll(g[m.path := m], m, s, specs).linkError
         == First([m.linkError] + ReexportErrors(g, g[s.from], s, specs))
    decreases |specs|
  {
    if specs == [] {
      FirstAlone(m.linkError);
    } else {
      var g', last := g[m.path := m], |specs| - 1;
      ReexportBlame(g, rank, m, s, specs[..last]);
      var m1 := ReexportAll(g', m, s, specs[..last]);
      assert g'[m.path := m1] == g[m.path := m1];
      OneReexportBlame(g, rank, m1, g[m.path := m1], s, specs[last]);
      FirstChain(m.linkError, ReexportErrors(g, g[s.from], s, specs[..last]),
                 [ReexportError(g, g[s.from], s, specs[last])]);
    }
  }

  lemma {:induction false} OneReexportBlame(g: Graph, rank: Path -> nat, m: Module, h: Graph, s: Statement,
                                            spec: ReexportSpec)
    requires s.ExportFrom? && s.from in g && h == g[m.path := m]
    requires SameBelow(g, g, rank, rank(m.path)) && rank(s.from) < rank(m.path)
    ensures Reexport(h, m, s, spec).linkError == First([m.linkError] + [ReexportError(g, g[s.from], s, spec)])
  {
    var m1 := m.(indirect := m.indirect[spec.exported := (h[s.from].path, spec.name)]);
    assert h[m.path := m1] == g[m.path := m1];
    UnseenFrom(g, rank, m.path, m1, s.from, spec.name);
    BlameIsFirst(m1, ReexportError(g, g[s.from], s, spec));
  }

  lemma {:induction false} DefaultBlame(g: Graph, rank: Path -> nat, m: Module, s: Statement)
    requires s.Import? && s.from in g && SameBelow(g, g, rank, rank(m.path)) && rank(s.from) < rank(m.path)
    ensures AfterDefault(g[m.path := m], m, s).linkError
         == First([m.linkError] + (PassedOn(g, s) + [DefaultImportError(g, g[s.from], s)]))
  {
    var p, t := m.path, g[s.from];
    var m1 := if s.typeOnly then m else BlameIf(m, t.linkError);
    BlameIsFirst(m, t.linkError);
    FirstAlone(m.linkError);
    assert m1.linkError == First([m.linkError] + PassedOn(g, s));
    assert g[p := m][p := m1] == g[p := m1];
    UnseenFrom(g, rank, p, m1, s.from, DEFAULT);
    var d := DefaultImportError(g, t, s);
    BlameIsFirst(m1, d);
    FirstChain(m.linkError, PassedOn(g, s), [d]);
  }

  lemma {:induction false} ImportBlame(g: Graph, rank: Path -> nat, m: Module, s: Statement)
    requires s.Import? && s.from in g && SameBelow(g, g, rank, rank(m.path)) && rank(s.from) < rank(m.path)
    ensures ImportStep(g[m.path := m], m, s).linkError == First([m.linkError] + (PassedOn(g, s) + OwnErrors(g, s)))
  {
    var m2 := AfterDefault(g[m.path := m], m, s);
    var named := NamedErrors(g, g[s.from], s, s.named);
    var front := PassedOn(g, s) + [DefaultImportError(g, g[s.from], s)];
    DefaultBlame(g, rank, m, s);
    ImportStepSplits(g, m, s);
    NamedBlame(g, rank, g[s.from], m2, s, s.named);
    FirstChain(m.linkError, front, named);
    assert front + named == PassedOn(g, s) + OwnErrors(g, s);
  }

  lemma {:induction false} ImportStepSplits(g: Graph, m: Module, s: Statement)
    requires s.Import? && s.from in g && s.from != m.path
    ensures var m2 := AfterDefault(g[m.path := m], m, s);
            ImportStep(g[m.path := m], m, s) == BlameNamed(g[m.path := m2], g[s.from], m2, s, s.named)
  {
    var m2 := AfterDefault(g[m.path := m], m, s);
    assert g[m.path := m][m.path := m2] == g[m.path := m2];
  }

  lemma {:induction false} ExportFromBlame(g: Graph, rank: Path -> nat, m: Module, s: Statement)
    requires s.ExportNamespace? || s.ExportStar? || s.ExportFrom?
    requires s.from in g && SameBelow(g, g, rank, rank(m.path)) && rank(s.from) < rank(m.path)
    ensures ExportFromStep(g[m.path := m], m, s).linkError == First([m.linkError] + (PassedOn(g, s) + OwnErrors(g, s)))
  {
    var p, t := m.path, g[s.from];
    var m1 := BlameIf(m, t.linkError);
    BlameIsFirst(m, t.linkError);
    if s.ExportFrom? {
      assert g[p := m][p := m1] == g[p := m1];
      ReexportBlame(g, rank, m1, s, s.specs);
      FirstChain(m.linkError, PassedOn(g, s), OwnErrors(g, s));
    } else {
      assert PassedOn(g, s) + OwnErrors(g, s) == PassedOn(g, s);
    }
  }

  lemma {:induction false} LocalsKeepError(m: Module, locals: seq<LocalSpec>)
    ensures ExportLocals(m, locals).linkError == m.linkError
    decreases |locals|
  {
    if locals != [] { LocalsKeepError(m, locals[..|locals|-1]); }
  }

  lemma {:induction false} HoistKeepsError(m: Module, ss: seq<Statement>)
    ensures HoistAll(m, ss).linkError == m.linkError
    decreases |ss|
  {
    if ss != [] { HoistKeepsError(m, ss[..|ss|-1]); }
  }

  /** One statement adds the error it passes on and its own failed bindings, behind what is already there. */
  lemma {:induction false} StepBlame(g: Graph, rank: Path -> nat, m: Module, s: Statement)
    requires SameBelow(g, g, rank, rank(m.path))
    requires s.Loads() ==> s.from != m.path && (s.from in g ==> rank(s.from) < rank(m.path))
    ensures Step(g, m, s).linkError == First([m.linkError] + (PassedOn(g, s) + OwnErrors(g, s)))
  {
    if s.Loads() && s.from in g {
      if s.Import? { ImportBlame(g, rank, m, s); } else { ExportFromBlame(g, rank, m, s); }
    } else {
      assert [m.linkError] + (PassedOn(g, s) + OwnErrors(g, s)) == [m.linkError];
      if s.ExportLocal? { LocalsKeepError(m, s.locals); }
    }
  }

  // ---------------------------------------------------------------- errors of one module

  function FoldErrors(g: Graph, ss: seq<Statement>): seq<string> {
    if ss == [] then []
    else FoldErrors(g, ss[..|ss|-1]) + (PassedOn(g, ss[|ss|-1]) + OwnErrors(g, ss[|ss|-1]))
  }

  lemma {:induction false} FoldBlame(prog: Program, g: Graph, rank: Path -> nat, m: Module, ss: seq<Statement>)
    requires SameBelow(g, g, rank, rank(m.path)) && m.path in prog && m.path in g
    requires CanFold(prog, g, rank, m.path, ss)
    ensures Fold(g, m, ss).linkError == First([m.linkError] + FoldErrors(g, ss))
    decreases |ss|
  {
    if ss == [] {
      FirstAlone(m.linkError);
    } else {
      var last := |ss| - 1;
      FoldBlame(prog, g, rank, m, ss[..last]);
      assert CanStep(prog, g, rank, m.path, ss[last]);
      StepBlame(g, rank, Fold(g, m, ss[..last]), ss[last]);
      FirstChain(m.linkError, FoldErrors(g, ss[..last]), PassedOn(g, ss[last]) + OwnErrors(g, ss[last]));
    }
  }

  /** The link error of a finished module, from the records of the modules it names. */
  lemma {:induction false} SettledError(prog: Program, g: Graph, rank: Path -> nat, p: Path)
    requires Acyclic(prog, rank) && p in g && Sound(prog, g, rank, rank(p) + 1)
    ensures g[p].linkError == match prog[p]
                              case Broken(msg) => msg
                              case Opaque(_, _, _, _) => ""
                              case Code(ss, _, _, _) => First(FoldErrors(g, ss))
  {
    var ss := Body(prog[p]);
    assert Settled(prog, g, p);
    HoistKeepsError(Bare(p, prog[p]), ss);
    AcyclicCanFold(prog, g, rank, p, ss);
    SoundSame(prog, g, g, rank, rank(p) + 1, rank(p));
    FoldBlame(prog, g, rank, Started(prog, p), ss);
    FirstOfTwo([Started(prog, p).linkError], FoldErrors(g, ss));
  }

  // ---------------------------------------------------------------- errors of a whole graph

  /** Everything the graph under `p` has to report, in depth-first statement order. */
  function DepthFirstErrors(prog: Program, g: Graph, rank: Path -> nat, p: Path): seq<string>
    requires p in prog
    decreases rank(p), 1, 0
  {
    match prog[p]
    case Broken(msg) => [msg]
    case Opaque(_, _, _, _) => []
    case Code(ss, _, _, _) => StatementsErrors(prog, g, rank, p, ss)
  }

  function StatementsErrors(prog: Program, g: Graph, rank: Path -> nat, p: Path, ss: seq<Statement>): seq<string>
    decreases rank(p), 0, |ss| + 1
  {
    if ss == [] then []
    else
      var s := ss[|ss|-1];
      var passed := if s.Poisons() && s.from in g && s.from in prog && rank(s.from) < rank(p)
                    then DepthFirstErrors(prog, g, rank, s.from) else [];
      StatementsErrors(prog, g, rank, p, ss[..|ss|-1]) + (passed + OwnErrors(g, s))
  }

  /** The message kept is the first one in depth-first statement order. */
  lemma {:induction false} FirstErrorKept(prog: Program, g: Graph, rank: Path -> nat, p: Path)
    requires Acyclic(prog, rank) && p in g && Sound(prog, g, rank, rank(p) + 1)
    ensures p in prog && g[p].linkError == First(DepthFirstErrors(prog, g, rank, p))
    decreases rank(p), 1, 0
  {
    SettledError(prog, g, rank, p);
    if prog[p].Code? {
      StatementsKept(prog, g, rank, p, |Body(prog[p])|);
      assert Body(prog[p])[..|Body(prog[p])|] == Body(prog[p]);
    }
  }

  lemma {:induction false} StatementsKept(prog: Program, g: Graph, rank: Path -> nat, p: Path, n: nat)
    requires Acyclic(prog, rank) && p in prog && p in g && Sound(prog, g, rank, rank(p) + 1) && n <= |Body(prog[p])|
    ensures var ss := Body(prog[p])[..n]; First(FoldErrors(g, ss)) == First(StatementsErrors(prog, g, rank, p, ss))
    decreases rank(p), 0, n
  {
    if n > 0 {
      var body := Body(prog[p]);
      var s := body[n-1];
      assert body[..n][..n-1] == body[..n-1] && body[..n][n-1] == s;
      StatementsKept(prog, g, rank, p, n - 1);
      assert Descends(prog, rank, p, s);
      var passed := [];
      if s.Poisons() && s.from in g {
        FirstErrorKept(prog, g, rank, s.from);
        passed := DepthFirstErrors(prog, g, rank, s.from);
        PassedOnIs(g, s);
      }
      FirstOfParts(FoldErrors(g, body[..n-1]), PassedOn(g, s), StatementsErrors(prog, g, rank, p, body[..n-1]), passed,
                   OwnErrors(g, s));
    }
  }

  lemma {:induction false} PassedOnIs(g: Graph, s: Statement)
    requires s.Poisons() && s.from in g
    ensures First(PassedOn(g, s)) == g[s.from].linkError
  {
    FirstAlone(g[s.from].linkError);
  }

  // ---------------------------------------------------------------- an error anywhere below reaches the top

  /** File `q` fails by itself: it does not parse, or one of its own bindings does not link. */
  ghost predicate FailsItself(prog: Program, g: Graph, q: Path) {
    && q in prog
    && match prog[q]
       case Broken(msg) => msg != ""
       case Opaque(_, _, _, _) => false
       case Code(ss, _, _, _) => exists i :: 0 <= i < |ss| && First(OwnErrors(g, ss[i])) != ""
  }

  /** `q` is reached from `p` by imports that are not type-only and by `export ... from`. */
  ghost predicate PoisonReaches(prog: Program, g: Graph, rank: Path -> nat, p: Path, q: Path)
    decreases rank(p)
  {
    || p == q
    || (p in prog && exists i :: && 0 <= i < |Body(prog[p])|
                                 && PoisonEdge(prog, g, p, Body(prog[p])[i])
                                 && rank(Body(prog[p])[i].from) < rank(p)
                                 && PoisonReaches(prog, g, rank, Body(prog[p])[i].from, q))
  }

  ghost predicate PoisonEdge(prog: Program, g: Graph, p: Path, s: Statement) {
    s.Poisons() && s.from in g
  }

  /** The statement passes an error on or has a failed binding of its own. */
  ghost predicate Fails(g: Graph, s: Statement) {
    First(PassedOn(g, s)) != "" || First(OwnErrors(g, s)) != ""
  }

  lemma {:induction false} LastErrors(g: Graph, ss: seq<Statement>)
    requires ss != []
    ensures First(FoldErrors(g, ss)) != "" <==> First(FoldErrors(g, ss[..|ss|-1])) != "" || Fails(g, ss[|ss|-1])
  {
    var s := ss[|ss|-1];
    FirstOfTwo(PassedOn(g, s), OwnErrors(g, s));
    FirstOfTwo(FoldErrors(g, ss[..|ss|-1]), PassedOn(g, s) + OwnErrors(g, s));
  }

  ghost predicate SomeFails(g: Graph, ss: seq<Statement>) {
    ss != [] && (SomeFails(g, ss[..|ss|-1]) || Fails(g, ss[|ss|-1]))
  }

  lemma {:induction false} SomeFailsAt(g: Graph, ss: seq<Statement>, i: nat)
    requires i < |ss| && Fails(g, ss[i])
    ensures SomeFails(g, ss)
    decreases |ss|
  {
    if i < |ss| - 1 {
      assert ss[..|ss|-1][i] == ss[i];
      SomeFailsAt(g, ss[..|ss|-1], i);
    }
  }

  lemma {:induction false} FailingStatement(g: Graph, ss: seq<Statement>) returns (i: nat)
    requires SomeFails(g, ss)
    ensures i < |ss| && Fails(g, ss[i])
    decreases |ss|
  {
    i := |ss| - 1;
    if !Fails(g, ss[i]) {
      i := FailingStatement(g, ss[..|ss|-1]);
    }
  }

  lemma {:induction false} FoldErrorsMember(g: Graph, ss: seq<Statement>)
    ensures First(FoldErrors(g, ss)) != "" <==> SomeFails(g, ss)
    decreases |ss|
  {
    if ss != [] {
      FoldErrorsMember(g, ss[..|ss|-1]);
      LastErrors(g, ss);
    }
  }

  lemma {:induction false} ErrorHasCause(prog: Program, g: Graph, rank: Path -> nat, p: Path) returns (q: Path)
    requires Acyclic(prog, rank) && p in g && Sound(prog, g, rank, rank(p) + 1)
    requires g[p].linkError != ""
    ensures PoisonReaches(prog, g, rank, p, q) && FailsItself(prog, g, q)
    decreases rank(p)
  {
    q := p;
    if !FailsItself(prog, g, p) {
      var i := PassedOnError(prog, g, rank, p);
      var s := Body(prog[p])[i];
      q := ErrorHasCause(prog, g, rank, s.from);
      assert PoisonEdge(prog, g, p, s);
    }
  }

  /** An error that is not the module's own was passed on by one of its statements. */
  lemma {:induction false} PassedOnError(prog: Program, g: Graph, rank: Path -> nat, p: Path) returns (i: nat)
    requires Acyclic(prog, rank) && p in g && Sound(prog, g, rank, rank(p) + 1)
    requires g[p].linkError != "" && !FailsItself(prog, g, p)
    ensures i < |Body(prog[p])|
    ensures var s := Body(prog[p])[i];
            PoisonEdge(prog, g, p, s) && g[s.from].linkError != "" && rank(s.from) < rank(p)
  {
    SettledError(prog, g, rank, p);
    i := PassingStatement(g, Body(prog[p]));
    assert Descends(prog, rank, p, Body(prog[p])[i]);
  }

  lemma {:induction false} PassingStatement(g: Graph, ss: seq<Statement>) returns (i: nat)
    requires First(FoldErrors(g, ss)) != ""
    requires forall i :: 0 <= i < |ss| ==> First(OwnErrors(g, ss[i])) == ""
    ensures i < |ss| && First(PassedOn(g, ss[i])) != ""
  {
    FoldErrorsMember(g, ss);
    i := FailingStatement(g, ss);
  }

  lemma {:induction false} CauseGivesError(prog: Program, g: Graph, rank: Path -> nat, p: Path, q: Path)
    requires Acyclic(prog, rank) && p in g && Sound(prog, g, rank, rank(p) + 1)
    requires PoisonReaches(prog, g, rank, p, q) && FailsItself(prog, g, q)
    ensures g[p].linkError != ""
    decreases rank(p)
  {
    var ss := Body(prog[p]);
    if p == q {
      FailureGivesError(prog, g, rank, p);
    } else {
      var i :| 0 <= i < |ss| && PoisonEdge(prog, g, p, ss[i]) && rank(ss[i].from) < rank(p)
                             && PoisonReaches(prog, g, rank, ss[i].from, q);
      CauseGivesError(prog, g, rank, ss[i].from, q);
      PassedOnIs(g, ss[i]);
      SomeStatementFails(prog, g, rank, p, i);
    }
  }

  lemma {:induction false} FailureGivesError(prog: Program, g: Graph, rank: Path -> nat, p: Path)
    requires Acyclic(prog, rank) && p in g && Sound(prog, g, rank, rank(p) + 1) && FailsItself(prog, g, p)
    ensures g[p].linkError != ""
  {
    if prog[p].Code? {
      var i :| 0 <= i < |prog[p].statements| && First(OwnErrors(g, prog[p].statements[i])) != "";
      SomeStatementFails(prog, g, rank, p, i);
    } else {
      SettledError(prog, g, rank, p);
    }
  }

  lemma {:induction false} SomeStatementFails(prog: Program, g: Graph, rank: Path -> nat, p: Path, i: nat)
    requires Acyclic(prog, rank) && p in g && Sound(prog, g, rank, rank(p) + 1)
    requires i < |Body(prog[p])| && Fails(g, Body(prog[p])[i])
    ensures g[p].linkError != ""
  {
    SettledError(prog, g, rank, p);
    FoldErrorsMember(g, Body(prog[p]));
    SomeFailsAt(g, Body(prog[p]), i);
  }

  // ---------------------------------------------------------------- the entry file

  /** Analysing the entry in place leaves it the error that loading it would. */
  lemma {:induction false} EntryIsLoaded(prog: Program, entry: Path)
    requires entry in prog && prog[entry].Code?
    ensures AnalyzeEntry(prog, entry).1 == EntryReport(Load(prog, EMPTY, entry).mods[entry].linkError)
  {
    assert map[][entry := Started(prog, entry)] == map[entry := Started(prog, entry)];
  }

  lemma {:induction false} ErrorIffCause(prog: Program, g: Graph, rank: Path -> nat, p: Path)
    requires Acyclic(prog, rank) && p in g && Sound(prog, g, rank, rank(p) + 1)
    ensures g[p].linkError != "" <==> exists q :: PoisonReaches(prog, g, rank, p, q) && FailsItself(prog, g, q)
  {
    if g[p].linkError != "" {
      var q := ErrorHasCause(prog, g, rank, p);
    } else if q :| PoisonReaches(prog, g, rank, p, q) && FailsItself(prog, g, q) {
      CauseGivesError(prog, g, rank, p, q);
      assert false;
    }
  }

  /** Compiling an entry file whose static import graph is acyclic fails exactly when some file it reaches
      by value imports and re-exports fails by itself, and reports the first such error in depth-first order. */
  lemma {:induction false} LinkErrorsReachEntry(prog: Program, rank: Path -> nat, entry: Path)
    requires Acyclic(prog, rank) && entry in prog && prog[entry].Code?
    ensures var g, report := Load(prog, EMPTY, entry).mods, AnalyzeEntry(prog, entry).1;
            && Linked(prog, g)
            && (report != "" <==> exists q :: PoisonReaches(prog, g, rank, entry, q) && FailsItself(prog, g, q))
            && report == EntryReport(First(DepthFirstErrors(prog, g, rank, entry)))
  {
    LoadLinks(prog, entry, rank);
    var g := Load(prog, EMPTY, entry).mods;
    EntryIsLoaded(prog, entry);
    FirstErrorKept(prog, g, rank, entry);
    ErrorIffCause(prog, g, rank, entry);
  }
}
