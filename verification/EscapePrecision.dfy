/** In straight-line code the escape analysis flags nothing in vain. */
module EscapePrecision {
  import opened EscapeAnalysis
  import opened EscapeSoundness

  // ---------------------------------------------------------------- straight-line code

  /** No branch inside an expression. */
  predicate NoBranch(e: Expr) {
    match e
    case New(_, args) => NoBranches(args)
    case Ident(_) | Literal => true
    case Assign(_, v) => NoBranch(v)
    case Store(_, v) => NoBranch(v)
    case Call(callee, args) => NoBranch(callee) && NoBranches(args)
    case Load(b) => NoBranch(b)
    case ListLiteral(es) => NoBranches(es)
    case Binary(l, r) => NoBranch(l) && NoBranch(r)
    case Cond(_, _, _) => false
  }

  predicate NoBranches(es: seq<Expr>) {
    es == [] || (NoBranch(es[0]) && NoBranches(es[1..]))
  }

  /** Expressions and declarations one after the other, in blocks or not; a return or throw can only come last, and a
      declaration without a value is not of a variable that has one, those in `seen` and in what precedes. */
  predicate Straight(s: Stmt, last: bool, seen: set<Variable>) {
    match s
    case ExprStmt(e) => NoBranch(e)
    case Decl(x, init) => if init.None? then x !in seen else NoBranch(init.value)
    case Block(ss) => StraightAll(ss, last, seen)
    case Return(e) => last && NoBranch(e)
    case Throw(e) => last && NoBranch(e)
    case _ => false
  }

  predicate StraightAll(ss: seq<Stmt>, last: bool, seen: set<Variable>) {
    || ss == []
    || (&& Straight(ss[0], last && |ss| == 1, seen)
        && StraightAll(ss[1..], last, seen + Flows(StmtEvents(ss[0]))))
  }

  lemma {:induction false} VariablesAfter(f: Facts, evs: seq<Event>)
    ensures ApplyAll(f, evs).variables.Keys == f.variables.Keys + Flows(evs)
    decreases |evs|
  {
    if evs != [] {
      VariablesAfter(Apply(f, evs[0]), evs[1..]);
      assert evs == [evs[0]] + evs[1..];
      FlowsTwo([evs[0]], evs[1..]);
    }
  }

  /** Nothing fails. */
  ghost predicate NeverFails(o: Oracle) {
    forall t :: !o(t).fails
  }

  function ValueOf(st: State, x: Variable): Value {
    if x in st.env then st.env[x] else Other
  }

  /** If the analysis takes a value for an object, it is that object. */
  ghost predicate Made(f: Facts, src: Source, v: Value) {
    forall site :: site in Potential(f, src) ==> v == Object(site)
  }

  /** That holds of all variables; and what is flagged has leaked. */
  ghost predicate Exact(f: Facts, st: State) {
    && f.escapes <= st.leaked
    && forall x :: Made(f, FromVariable(x), ValueOf(st, x))
  }

  lemma {:induction false} LeakExact(f: Facts, st: State, src: Source, v: Value)
    requires Exact(f, st) && Made(f, src, v)
    ensures Exact(Apply(f, Sink(src)), Leak(st, v))
  {
    var f', st' := Apply(f, Sink(src)), Leak(st, v);
    forall x
      ensures Made(f', FromVariable(x), ValueOf(st', x))
    {
      assert Made(f, FromVariable(x), ValueOf(st, x));
    }
  }

  lemma {:induction false} WriteExact(f: Facts, st: State, x: Variable, src: Source, v: Value)
    requires Exact(f, st) && Made(f, src, v)
    ensures Exact(Apply(f, Flow(x, src)), st.(env := st.env[x := v]))
  {
    var f', st' := Apply(f, Flow(x, src)), st.(env := st.env[x := v]);
    forall y
      ensures Made(f', FromVariable(y), ValueOf(st', y))
    {
      assert Made(f, FromVariable(y), ValueOf(st, y));
    }
  }

  /** Clearing a flag, drawing a choice, and giving an unknown variable the value it counts as change nothing. */
  lemma {:induction false} SideExact(f: Facts, st: State, st': State, site: Site)
    requires Exact(f, st) && st'.leaked == st.leaked && forall x :: ValueOf(st', x) == ValueOf(st, x)
    ensures Exact(f, st') && Exact(Apply(f, Reset(site)), st')
  {
    forall x
      ensures Made(f, FromVariable(x), ValueOf(st', x))
      ensures Made(Apply(f, Reset(site)), FromVariable(x), ValueOf(st', x))
    {
      assert Made(f, FromVariable(x), ValueOf(st, x));
    }
  }

  /** In a run where nothing fails, an expression without branches has the effects the visitor takes it to have. */
  lemma {:induction false} EvalExact(f: Facts, o: Oracle, st: State, e: Expr)
    requires NoBranch(e) && NeverFails(o) && Exact(f, st)
    ensures var f', r := ApplyAll(f, Events(e)), Eval(o, st, e);
            r.v.Some? && Exact(f', r.st) && Made(f', SourceOf(e), r.v.value)
    decreases e
  {
    match e
    case New(site, args) =>
      ApplyTwo(f, [Reset(site)], SinkEvents(args));
      assert [Reset(site)][1..] == [];
      SideExact(f, st, st, site);
      SinksExact(Apply(f, Reset(site)), o, st, args);
      var (_, st1) := EvalSinks(o, st, args);
      SideExact(ApplyAll(f, Events(e)), st1, Draw(o, st1).1, site);
    case Ident(x) => assert Made(f, FromVariable(x), ValueOf(st, x));
    case Literal =>
    case Assign(x, v) =>
      EvalExact(f, o, st, v);
      ApplyThen(f, Events(v), Flow(x, SourceOf(v)));
      WriteExact(ApplyAll(f, Events(v)), Eval(o, st, v).st, x, SourceOf(v), Eval(o, st, v).v.value);
    case Store(_, v) =>
      EvalExact(f, o, st, v);
      ApplyThen(f, Events(v), Sink(SourceOf(v)));
      LeakExact(ApplyAll(f, Events(v)), Eval(o, st, v).st, SourceOf(v), Eval(o, st, v).v.value);
    case Call(callee, args) =>
      EvalExact(f, o, st, callee);
      ApplyTwo(f, Events(callee), SinkEvents(args));
      SinksExact(ApplyAll(f, Events(callee)), o, Eval(o, st, callee).st, args);
      var (_, st1) := EvalSinks(o, Eval(o, st, callee).st, args);
      SideExact(ApplyAll(f, Events(e)), st1, Draw(o, st1).1, 0);
    case Load(b) =>
      EvalExact(f, o, st, b);
      var st1 := Eval(o, st, b).st;
      SideExact(ApplyAll(f, Events(b)), st1, Draw(o, st1).1, 0);
    case ListLiteral(es) => SinksExact(f, o, st, es);
    case Binary(l, r) =>
      EvalExact(f, o, st, l);
      ApplyTwo(f, Events(l), Events(r));
      EvalExact(ApplyAll(f, Events(l)), o, Eval(o, st, l).st, r);
  }

  lemma {:induction false} SinksExact(f: Facts, o: Oracle, st: State, es: seq<Expr>)
    requires NoBranches(es) && NeverFails(o) && Exact(f, st)
    ensures var (ok, st') := EvalSinks(o, st, es); ok && Exact(ApplyAll(f, SinkEvents(es)), st')
    decreases es
  {
    if es != [] {
      var e, sink := es[0], Sink(SourceOf(es[0]));
      EvalExact(f, o, st, e);
      var f1, r := ApplyAll(f, Events(e)), Eval(o, st, e);
      LeakExact(f1, r.st, SourceOf(e), r.v.value);
      SinksExact(Apply(f1, sink), o, Leak(r.st, r.v.value), es[1..]);
      ApplyThen(f, Events(e), sink);
      ApplyTwo(f, Events(e) + [sink], SinkEvents(es[1..]));
    }
  }

  lemma {:induction false} DeclExact(f: Facts, st: State, x: Variable)
    requires Exact(f, st) && x !in f.variables
    ensures Exact(f, st.(env := st.env[x := Other]))
  {
    var st' := st.(env := st.env[x := Other]);
    forall y
      ensures Made(f, FromVariable(y), ValueOf(st', y))
    {
      assert Made(f, FromVariable(y), ValueOf(st, y));
    }
  }

  lemma {:induction false} StmtExact(f: Facts, o: Oracle, st: State, s: Stmt, last: bool, seen: set<Variable>,
                                     fuel: nat)
    requires Straight(s, last, seen) && f.variables.Keys <= seen && NeverFails(o) && Exact(f, st)
    ensures var (c, st') := Exec(o, st, s, fuel);
            Exact(ApplyAll(f, StmtEvents(s)), st') && (!last ==> c.Normal?)
    decreases s
  {
    match s
    case ExprStmt(e) => EvalExact(f, o, st, e);
    case Decl(x, init) =>
      if init.Some? {
        var e := init.value;
        EvalExact(f, o, st, e);
        ApplyThen(f, Events(e), Flow(x, SourceOf(e)));
        WriteExact(ApplyAll(f, Events(e)), Eval(o, st, e).st, x, SourceOf(e), Eval(o, st, e).v.value);
      } else {
        DeclExact(f, st, x);
      }
    case Block(ss) => BodyExact(f, o, st, ss, last, seen, fuel);
    case Return(e) =>
      EvalExact(f, o, st, e);
      ApplyThen(f, Events(e), Sink(SourceOf(e)));
      LeakExact(ApplyAll(f, Events(e)), Eval(o, st, e).st, SourceOf(e), Eval(o, st, e).v.value);
    case Throw(e) =>
      EvalExact(f, o, st, e);
      ApplyThen(f, Events(e), Sink(SourceOf(e)));
      LeakExact(ApplyAll(f, Events(e)), Eval(o, st, e).st, SourceOf(e), Eval(o, st, e).v.value);
  }

  lemma {:induction false} BodyExact(f: Facts, o: Oracle, st: State, ss: seq<Stmt>, last: bool, seen: set<Variable>,
                                     fuel: nat)
    requires StraightAll(ss, last, seen) && f.variables.Keys <= seen && NeverFails(o) && Exact(f, st)
    ensures var (c, st') := ExecAll(o, st, ss, fuel);
            Exact(ApplyAll(f, AllEvents(ss)), st') && (!last ==> c.Normal?)
    decreases ss
  {
    if ss != [] {
      StmtExact(f, o, st, ss[0], last && |ss| == 1, seen, fuel);
      VariablesAfter(f, StmtEvents(ss[0]));
      ApplyTwo(f, StmtEvents(ss[0]), AllEvents(ss[1..]));
      var (c, st1) := Exec(o, st, ss[0], fuel);
      if |ss| == 1 {
        assert ss[1..] == [];
      } else {
        BodyExact(ApplyAll(f, StmtEvents(ss[0])), o, st1, ss[1..], last, seen + Flows(StmtEvents(ss[0])), fuel);
      }
    }
  }

  /** In straight-line code, however often its variables are assigned, every flagged site does leak, in any run in which
      nothing fails. */
  lemma {:induction false} FlaggedLeak(o: Oracle, body: seq<Stmt>, fuel: nat)
    requires StraightAll(body, true, {}) && NeverFails(o)
    ensures Flagged(body) <= Run(o, body, fuel).1.leaked
  {
    BodyExact(NOTHING, o, State(map[], {}, 0), body, true, {}, fuel);
  }

  lemma {:induction false} StraightHasNoLoops(ss: seq<Stmt>, last: bool, seen: set<Variable>)
    requires StraightAll(ss, last, seen)
    ensures AllLoopsOrdered(ss)
    decreases ss
  {
    if ss != [] {
      if ss[0].Block? { StraightHasNoLoops(ss[0].ss, last && |ss| == 1, seen); }
      StraightHasNoLoops(ss[1..], last, seen + Flows(StmtEvents(ss[0])));
    }
  }

  /** And if they are assigned once, nothing else does: such a run leaks exactly the objects of the flagged sites. */
  lemma {:induction false} FlaggedExactly(o: Oracle, body: seq<Stmt>, fuel: nat)
    requires StraightAll(body, true, {}) && NeverFails(o) && AssignedOnce(AllEvents(body)) && BodyTracked(body)
    ensures Run(o, body, fuel).1.leaked == Flagged(body)
  {
    FlaggedLeak(o, body, fuel);
    StraightHasNoLoops(body, true, {});
    OnlyFlaggedLeakIfOrdered(o, body, fuel);
  }

  // ---------------------------------------------------------------- code in which nothing can leave

  /** The expression hands no value to a call, a property, a literal or a constructor. */
  predicate Keeps(e: Expr) {
    match e
    case New(_, args) => args == []
    case Ident(_) | Literal => true
    case Assign(_, v) => Keeps(v)
    case Store(_, _) => false
    case Call(callee, args) => Keeps(callee) && args == []
    case Load(b) => Keeps(b)
    case ListLiteral(es) => es == []
    case Binary(l, r) => Keeps(l) && Keeps(r)
    case Cond(c, t, f) => Keeps(c) && Keeps(t) && Keeps(f)
  }

  /** Nor does the statement return or throw one, whatever its branches and loops. */
  predicate StmtKeeps(s: Stmt) {
    match s
    case ExprStmt(e) => Keeps(e)
    case Decl(_, init) => init.None? || Keeps(init.value)
    case Block(ss) => BodyKeeps(ss)
    case If(c, thn, els) => Keeps(c) && StmtKeeps(thn) && StmtKeeps(els)
    case While(c, body) => Keeps(c) && StmtKeeps(body)
    case For(start, c, step, body) => StmtKeeps(start) && Keeps(c) && Keeps(step) && StmtKeeps(body)
    case ForOf(_, list, body) => Keeps(list) && StmtKeeps(body)
    case Return(_) | Throw(_) => false
    case Break | Continue => true
    case Try(b, h, f) => BodyKeeps(b) && BodyKeeps(h) && BodyKeeps(f)
  }

  predicate BodyKeeps(ss: seq<Stmt>) {
    ss == [] || (StmtKeeps(ss[0]) && BodyKeeps(ss[1..]))
  }

  ghost predicate NoSink(evs: seq<Event>) {
    forall i :: 0 <= i < |evs| ==> !evs[i].Sink?
  }

  lemma {:induction false} ExprKeeps(e: Expr)
    requires Keeps(e)
    ensures NoSink(Events(e))
    decreases e
  {
    match e
    case Assign(_, v) => ExprKeeps(v);
    case Call(callee, _) => ExprKeeps(callee);
    case Load(b) => ExprKeeps(b);
    case Binary(l, r) => ExprKeeps(l); ExprKeeps(r);
    case Cond(c, t, f) => ExprKeeps(c); ExprKeeps(t); ExprKeeps(f);
    case _ =>
  }

  lemma {:induction false} StmtHasNoSink(s: Stmt)
    requires StmtKeeps(s)
    ensures NoSink(StmtEvents(s))
    decreases s
  {
    match s
    case ExprStmt(e) => ExprKeeps(e);
    case Decl(_, init) => if init.Some? { ExprKeeps(init.value); }
    case Block(ss) => BodyHasNoSink(ss);
    case If(c, thn, els) => ExprKeeps(c); StmtHasNoSink(thn); StmtHasNoSink(els);
    case While(c, body) => ExprKeeps(c); StmtHasNoSink(body);
    case For(start, c, step, body) => StmtHasNoSink(start); ExprKeeps(c); ExprKeeps(step); StmtHasNoSink(body);
    case ForOf(_, list, body) => ExprKeeps(list); StmtHasNoSink(body);
    case Try(b, h, f) => BodyHasNoSink(b); BodyHasNoSink(h); BodyHasNoSink(f);
    case Break | Continue =>
  }

  lemma {:induction false} BodyHasNoSink(ss: seq<Stmt>)
    requires BodyKeeps(ss)
    ensures NoSink(AllEvents(ss))
    decreases ss
  {
    if ss != [] {
      StmtHasNoSink(ss[0]);
      BodyHasNoSink(ss[1..]);
    }
  }

  lemma {:induction false} NothingMarked(f: Facts, evs: seq<Event>)
    requires NoSink(evs)
    ensures ApplyAll(f, evs).escapes <= f.escapes
    decreases |evs|
  {
    if evs != [] { NothingMarked(Apply(f, evs[0]), evs[1..]); }
  }

  /** Where no value is handed on at all, nothing is flagged, whatever the branches and loops. */
  lemma {:induction false} KeepersUnflagged(body: seq<Stmt>)
    requires BodyKeeps(body)
    ensures Flagged(body) == {}
  {
    BodyHasNoSink(body);
    NothingMarked(NOTHING, AllEvents(body));
  }
}
