/** No object of an unflagged site ever leaves the function, in any run. */
module EscapeSoundness {
  import opened EscapeAnalysis
  import opened Options

  // ---------------------------------------------------------------- runs

  /** A value is an object made by a `new` of the body, or anything else. */
  datatype Value = Object(site: Site) | Other

  /** What the environment decides at one point of a run: a branch, a failure, an object handed back. */
  datatype Choice = Choice(branch: bool, fails: bool, given: Option<Site>)

  type Oracle = nat -> Choice

  /** `leaked` are the sites of objects returned, thrown, passed, stored in a property or put in a literal. */
  datatype State = State(env: map<Variable, Value>, leaked: set<Site>, tick: nat)

  datatype Completion = Normal | Breaks | Continues | Returns | Throws | OutOfFuel

  /** `v` is present unless the evaluation threw. */
  datatype Outcome = Outcome(v: Option<Value>, st: State)

  function Draw(o: Oracle, st: State): (Choice, State) {
    (o(st.tick), st.(tick := st.tick + 1))
  }

  /** A call or a property read may hand back any object that has leaked before. */
  function HandedBack(c: Choice, st: State): Value {
    if c.given.Some? && c.given.value in st.leaked then Object(c.given.value) else Other
  }

  function Leak(st: State, v: Value): State {
    if v.Object? then st.(leaked := st.leaked + {v.site}) else st
  }

  function Eval(o: Oracle, st: State, e: Expr): Outcome
    decreases e
  {
    match e
    case New(site, args) =>
      var (ok, st1) := EvalSinks(o, st, args);
      var (c, st2) := Draw(o, st1);
      if !ok || c.fails then Outcome(None, st2) else Outcome(Some(Object(site)), st2)
    case Ident(x) => Outcome(Some(if x in st.env then st.env[x] else Other), st)
    case Literal => Outcome(Some(Other), st)
    case Assign(x, v) =>
      var r := Eval(o, st, v);
      if r.v.None? then r else Outcome(r.v, r.st.(env := r.st.env[x := r.v.value]))
    case Store(_, v) =>
      var r := Eval(o, st, v);
      if r.v.None? then r else Outcome(r.v, Leak(r.st, r.v.value))
    case Call(callee, args) =>
      var f := Eval(o, st, callee);
      if f.v.None? then f
      else
        var (ok, st1) := EvalSinks(o, f.st, args);
        var (c, st2) := Draw(o, st1);
        if !ok || c.fails then Outcome(None, st2) else Outcome(Some(HandedBack(c, st2)), st2)
    case Load(b) =>
      var r := Eval(o, st, b);
      var (c, st1) := Draw(o, r.st);
      if r.v.None? || c.fails then Outcome(None, st1) else Outcome(Some(HandedBack(c, st1)), st1)
    case ListLiteral(es) =>
      var (ok, st1) := EvalSinks(o, st, es);
      Outcome(if ok then Some(Other) else None, st1)
    case Binary(l, r) =>
      var a := Eval(o, st, l);
      if a.v.None? then a
      else
        var b := Eval(o, a.st, r);
        if b.v.None? then b else Outcome(Some(Other), b.st)
    case Cond(t, e1, e2) =>
      var a := Eval(o, st, t);
      if a.v.None? then a
      else
        var (c, st1) := Draw(o, a.st);
        Eval(o, st1, if c.branch then e1 else e2)
  }

  function EvalSinks(o: Oracle, st: State, es: seq<Expr>): (bool, State)
    decreases es
  {
    if es == [] then (true, st)
    else
      var r := Eval(o, st, es[0]);
      if r.v.None? then (false, r.st) else EvalSinks(o, Leak(r.st, r.v.value), es[1..])
  }

  function Exec(o: Oracle, st: State, s: Stmt, fuel: nat): (Completion, State)
    decreases fuel, s, 1
  {
    match s
    case ExprStmt(e) =>
      var r := Eval(o, st, e);
      (if r.v.Some? then Normal else Throws, r.st)
    case Decl(x, init) =>
      if init.None? then (Normal, st.(env := st.env[x := Other]))
      else
        var r := Eval(o, st, init.value);
        if r.v.None? then (Throws, r.st) else (Normal, r.st.(env := r.st.env[x := r.v.value]))
    case Block(ss) => ExecAll(o, st, ss, fuel)
    case If(t, thn, els) =>
      var r := Eval(o, st, t);
      if r.v.None? then (Throws, r.st)
      else
        var (c, st1) := Draw(o, r.st);
        Exec(o, st1, if c.branch then thn else els, fuel)
    case While(_, _) => Loop(o, st, s, fuel)
    case For(start, _, _, _) =>
      var (c, st1) := Exec(o, st, start, fuel);
      if !c.Normal? then (c, st1) else Loop(o, st1, s, fuel)
    case ForOf(_, list, _) =>
      var r := Eval(o, st, list);
      if r.v.None? then (Throws, r.st) else Loop(o, r.st, s, fuel)
    case Return(e) =>
      var r := Eval(o, st, e);
      if r.v.None? then (Throws, r.st) else (Returns, Leak(r.st, r.v.value))
    case Throw(e) =>
      var r := Eval(o, st, e);
      (Throws, if r.v.None? then r.st else Leak(r.st, r.v.value))
    case Break => (Breaks, st)
    case Continue => (Continues, st)
    case Try(b, h, f) =>
      var (c, st1) := ExecAll(o, st, b, fuel);
      var (d, st2) := if c.Throws? then ExecAll(o, st1, h, fuel) else (c, st1);
      if d.OutOfFuel? then (d, st2)
      else
        var (e, st3) := ExecAll(o, st2, f, fuel);
        (if e.Normal? then d else e, st3)
  }

  function ExecAll(o: Oracle, st: State, ss: seq<Stmt>, fuel: nat): (Completion, State)
    decreases fuel, ss, 2
  {
    if ss == [] then (Normal, st)
    else
      var (c, st1) := Exec(o, st, ss[0], fuel);
      if !c.Normal? then (c, st1) else ExecAll(o, st1, ss[1..], fuel)
  }

  /** The test of a loop: evaluated and decided by the environment, or one more element of a list. */
  function Test(o: Oracle, st: State, s: Stmt): (Option<bool>, State)
    requires s.While? || s.For? || s.ForOf?
  {
    if s.ForOf? then
      var (c, st1) := Draw(o, st);
      (Some(c.branch), st1.(env := st1.env[s.x := HandedBack(c, st1)]))
    else
      var r := Eval(o, st, s.test);
      var (c, st1) := Draw(o, r.st);
      (if r.v.None? then None else Some(c.branch), st1)
  }

  function Loop(o: Oracle, st: State, s: Stmt, fuel: nat): (Completion, State)
    requires s.While? || s.For? || s.ForOf?
    decreases fuel, s, 0
  {
    var (go, st1) := Test(o, st, s);
    if go.None? then (Throws, st1)
    else if !go.value then (Normal, st1)
    else
      var (c, st2) := Exec(o, st1, s.body, fuel);
      if c.Breaks? then (Normal, st2)
      else if !c.Normal? && !c.Continues? then (c, st2)
      else
        var r := if s.For? then Eval(o, st2, s.step) else Outcome(Some(Other), st2);
        if r.v.None? then (Throws, r.st)
        else if fuel == 0 then (OutOfFuel, r.st)
        else Loop(o, r.st, s, fuel - 1)
  }

  function Run(o: Oracle, body: seq<Stmt>, fuel: nat): (Completion, State) {
    ExecAll(o, State(map[], {}, 0), body, fuel)
  }

  // ---------------------------------------------------------------- the fragment

  /** The visitor sees the objects in the value of `e` unless it is a conditional or an assignment. */
  predicate Tracked(e: Expr) {
    !e.Cond? && !e.Assign?
  }

  /** Values that are written, stored, passed, returned or thrown are tracked. */
  predicate FlowsTracked(e: Expr) {
    match e
    case New(_, args) => AllTracked(args)
    case Ident(_) | Literal => true
    case Assign(_, v) => Tracked(v) && FlowsTracked(v)
    case Store(_, v) => Tracked(v) && FlowsTracked(v)
    case Call(callee, args) => FlowsTracked(callee) && AllTracked(args)
    case Load(b) => FlowsTracked(b)
    case ListLiteral(es) => AllTracked(es)
    case Binary(l, r) => FlowsTracked(l) && FlowsTracked(r)
    case Cond(c, t, f) => FlowsTracked(c) && FlowsTracked(t) && FlowsTracked(f)
  }

  predicate AllTracked(es: seq<Expr>) {
    es == [] || (Tracked(es[0]) && FlowsTracked(es[0]) && AllTracked(es[1..]))
  }

  predicate StmtTracked(s: Stmt) {
    match s
    case ExprStmt(e) => FlowsTracked(e)
    case Decl(_, init) => init.Some? ==> Tracked(init.value) && FlowsTracked(init.value)
    case Block(ss) => BodyTracked(ss)
    case If(c, thn, els) => FlowsTracked(c) && StmtTracked(thn) && StmtTracked(els)
    case While(c, body) => FlowsTracked(c) && StmtTracked(body)
    case For(start, c, step, body) => StmtTracked(start) && FlowsTracked(c) && FlowsTracked(step) && StmtTracked(body)
    case ForOf(_, list, body) => FlowsTracked(list) && StmtTracked(body)
    case Return(e) => Tracked(e) && FlowsTracked(e)
    case Throw(e) => Tracked(e) && FlowsTracked(e)
    case Break | Continue => true
    case Try(b, h, f) => BodyTracked(b) && BodyTracked(h) && BodyTracked(f)
  }

  predicate BodyTracked(ss: seq<Stmt>) {
    ss == [] || (StmtTracked(ss[0]) && BodyTracked(ss[1..]))
  }

  predicate Reads(ev: Event, x: Variable) {
    !ev.Reset? && ev.src == FromVariable(x)
  }

  /** `new` expressions are distinct, and every variable takes a value once. */
  predicate AssignedOnce(evs: seq<Event>) {
    && (forall i, j :: 0 <= i < j < |evs| && evs[i].Reset? && evs[j].Reset? ==> evs[i].site != evs[j].site)
    && (forall i, j :: 0 <= i < j < |evs| && evs[i].Flow? && evs[j].Flow? ==> evs[i].x != evs[j].x)
  }

  /** The variables that take a value. */
  function Flows(evs: seq<Event>): set<Variable> {
    set i | 0 <= i < |evs| && evs[i].Flow? :: evs[i].x
  }

  // ---------------------------------------------------------------- what the final facts say of each event

  predicate Holds(f: Facts, ev: Event) {
    match ev
    case Reset(_) => true
    case Flow(x, src) => x in f.variables && Potential(f, src) <= f.variables[x]
    case Sink(src) => Potential(f, src) <= f.escapes
  }

  /** The event reads a variable outside `written`. */
  predicate ReadsOutside(ev: Event, written: set<Variable>) {
    !ev.Reset? && ev.src.FromVariable? && ev.src.x !in written
  }

  /** With `written` written already, every event holds of the facts or reads a variable that has no value yet. */
  predicate ConformsFrom(f: Facts, evs: seq<Event>, written: set<Variable>) {
    forall i :: 0 <= i < |evs| ==> Holds(f, evs[i]) || ReadsOutside(evs[i], written + Flows(evs[..i]))
  }

  /** Every read in a loop of a variable the loop assigns holds of the facts: going round again adds nothing. */
  predicate LoopStable(f: Facts, evs: seq<Event>) {
    forall i :: 0 <= i < |evs| ==> Holds(f, evs[i]) || ReadsOutside(evs[i], Flows(evs))
  }

  /** The events of the part of a loop that is repeated. */
  function Repeated(s: Stmt): seq<Event>
    requires s.While? || s.For? || s.ForOf?
  {
    match s
    case While(c, body) => Events(c) + StmtEvents(body)
    case For(_, c, step, body) => Events(c) + Events(step) + StmtEvents(body)
    case ForOf(_, _, body) => StmtEvents(body)
  }

  predicate StmtStable(f: Facts, s: Stmt) {
    match s
    case Block(ss) => BodyStable(f, ss)
    case If(_, thn, els) => StmtStable(f, thn) && StmtStable(f, els)
    case While(_, body) => LoopStable(f, Repeated(s)) && StmtStable(f, body)
    case For(start, _, _, body) => StmtStable(f, start) && LoopStable(f, Repeated(s)) && StmtStable(f, body)
    case ForOf(_, _, body) => LoopStable(f, Repeated(s)) && StmtStable(f, body)
    case Try(b, h, fin) => BodyStable(f, b) && BodyStable(f, h) && BodyStable(f, fin)
    case ExprStmt(_) | Decl(_, _) | Return(_) | Throw(_) | Break | Continue => true
  }

  predicate BodyStable(f: Facts, ss: seq<Stmt>) {
    ss == [] || (StmtStable(f, ss[0]) && BodyStable(f, ss[1..]))
  }

  lemma {:induction false} FlowsTwo(a: seq<Event>, b: seq<Event>)
    ensures Flows(a + b) == Flows(a) + Flows(b)
  {
    forall x
      ensures x in Flows(a + b) <==> x in Flows(a) || x in Flows(b)
    {
      if x in Flows(a) {
        var i :| 0 <= i < |a| && a[i].Flow? && a[i].x == x;
        assert (a + b)[i] == a[i];
      }
      if x in Flows(b) {
        var i :| 0 <= i < |b| && b[i].Flow? && b[i].x == x;
        assert (a + b)[|a| + i] == b[i];
      }
      if x in Flows(a + b) {
        var i :| 0 <= i < |a + b| && (a + b)[i].Flow? && (a + b)[i].x == x;
        assert i < |a| ==> a[i] == (a + b)[i];
        assert i >= |a| ==> b[i - |a|] == (a + b)[i];
      }
    }
  }

  lemma {:induction false} ConformsInTwo(f: Facts, a: seq<Event>, b: seq<Event>, written: set<Variable>)
    requires ConformsFrom(f, a + b, written)
    ensures ConformsFrom(f, a, written) && ConformsFrom(f, b, written + Flows(a))
    ensures Flows(a + b) == Flows(a) + Flows(b)
  {
    FlowsTwo(a, b);
    forall i | 0 <= i < |a|
      ensures Holds(f, a[i]) || ReadsOutside(a[i], written + Flows(a[..i]))
    {
      assert (a + b)[i] == a[i] && (a + b)[..i] == a[..i];
    }
    forall i | 0 <= i < |b|
      ensures Holds(f, b[i]) || ReadsOutside(b[i], written + Flows(a) + Flows(b[..i]))
    {
      assert (a + b)[|a| + i] == b[i] && (a + b)[..|a| + i] == a + b[..i];
      FlowsTwo(a, b[..i]);
    }
  }

  /** A `new` is only used as a source after its own visit. */
  ghost predicate Introduced(evs: seq<Event>) {
    forall j :: 0 <= j < |evs| && !evs[j].Reset? && evs[j].src.FromSite? ==> Reset(evs[j].src.site) in evs[..j]
  }

  lemma {:induction false} IntroducedTwo(a: seq<Event>, b: seq<Event>)
    requires Introduced(a) && Introduced(b)
    ensures Introduced(a + b)
  {
    forall j | 0 <= j < |a + b| && !(a + b)[j].Reset? && (a + b)[j].src.FromSite?
      ensures Reset((a + b)[j].src.site) in (a + b)[..j]
    {
      if j < |a| {
        assert (a + b)[..j] == a[..j];
      } else {
        assert (a + b)[..j] == a + b[..j-|a|];
        assert Reset(b[j-|a|].src.site) in b[..j-|a|];
      }
    }
  }

  lemma {:induction false} IntroducedUse(e: Expr, ev: Event)
    requires Introduced(Events(e)) && !ev.Reset? && ev.src == SourceOf(e)
    ensures Introduced(Events(e) + [ev])
  {
    var evs := Events(e) + [ev];
    assert evs[..|evs|-1] == Events(e);
    if e.New? { assert Events(e)[0] == Reset(e.site); }
    forall j | 0 <= j < |evs| - 1 && !evs[j].Reset? && evs[j].src.FromSite?
      ensures Reset(evs[j].src.site) in evs[..j]
    {
      assert evs[..j] == Events(e)[..j];
    }
  }

  lemma {:induction false} ExprIntroduced(e: Expr)
    ensures Introduced(Events(e))
  {
    match e
    case New(site, args) =>
      SinksIntroduced(args);
      IntroducedTwo([Reset(site)], SinkEvents(args));
    case Ident(_) =>
    case Literal =>
    case Assign(x, v) => ExprIntroduced(v); IntroducedUse(v, Flow(x, SourceOf(v)));
    case Store(_, v) => ExprIntroduced(v); IntroducedUse(v, Sink(SourceOf(v)));
    case Call(callee, args) =>
      ExprIntroduced(callee);
      SinksIntroduced(args);
      IntroducedTwo(Events(callee), SinkEvents(args));
    case Load(b) => ExprIntroduced(b);
    case ListLiteral(es) => SinksIntroduced(es);
    case Binary(l, r) =>
      ExprIntroduced(l);
      ExprIntroduced(r);
      IntroducedTwo(Events(l), Events(r));
    case Cond(c, t, f) =>
      ExprIntroduced(c);
      ExprIntroduced(t);
      ExprIntroduced(f);
      IntroducedTwo(Events(c), Events(t));
      IntroducedTwo(Events(c) + Events(t), Events(f));
  }

  lemma {:induction false} SinksIntroduced(es: seq<Expr>)
    ensures Introduced(SinkEvents(es))
  {
    if es != [] {
      ExprIntroduced(es[0]);
      IntroducedUse(es[0], Sink(SourceOf(es[0])));
      SinksIntroduced(es[1..]);
      IntroducedTwo(Events(es[0]) + [Sink(SourceOf(es[0]))], SinkEvents(es[1..]));
    }
  }

  lemma {:induction false} StmtIntroduced(s: Stmt)
    ensures Introduced(StmtEvents(s))
  {
    match s
    case ExprStmt(e) => ExprIntroduced(e);
    case Decl(x, init) =>
      if init.Some? {
        ExprIntroduced(init.value);
        IntroducedUse(init.value, Flow(x, SourceOf(init.value)));
      }
    case Block(ss) => BodyIntroduced(ss);
    case If(c, thn, els) =>
      ExprIntroduced(c);
      StmtIntroduced(thn);
      StmtIntroduced(els);
      IntroducedTwo(Events(c), StmtEvents(thn));
      IntroducedTwo(Events(c) + StmtEvents(thn), StmtEvents(els));
    case While(c, body) =>
      ExprIntroduced(c);
      StmtIntroduced(body);
      IntroducedTwo(Events(c), StmtEvents(body));
    case For(start, c, step, body) =>
      StmtIntroduced(start);
      ExprIntroduced(c);
      ExprIntroduced(step);
      StmtIntroduced(body);
      IntroducedTwo(StmtEvents(start), Events(c));
      IntroducedTwo(StmtEvents(start) + Events(c), Events(step));
      IntroducedTwo(StmtEvents(start) + Events(c) + Events(step), StmtEvents(body));
    case ForOf(_, list, body) =>
      ExprIntroduced(list);
      StmtIntroduced(body);
      IntroducedTwo(Events(list), StmtEvents(body));
    case Return(e) => ExprIntroduced(e); IntroducedUse(e, Sink(SourceOf(e)));
    case Throw(e) => ExprIntroduced(e); IntroducedUse(e, Sink(SourceOf(e)));
    case Break =>
    case Continue =>
    case Try(b, h, f) =>
      BodyIntroduced(b);
      BodyIntroduced(h);
      BodyIntroduced(f);
      IntroducedTwo(AllEvents(b), AllEvents(h));
      IntroducedTwo(AllEvents(b) + AllEvents(h), AllEvents(f));
  }

  lemma {:induction false} BodyIntroduced(ss: seq<Stmt>)
    ensures Introduced(AllEvents(ss))
  {
    if ss != [] {
      StmtIntroduced(ss[0]);
      BodyIntroduced(ss[1..]);
      IntroducedTwo(StmtEvents(ss[0]), AllEvents(ss[1..]));
    }
  }

  /** The facts mention only sites seen, and every variable that took a value. */
  ghost predicate SitesSeen(f: Facts, evs: seq<Event>) {
    && (forall ev :: ev in evs && ev.Flow? ==> ev.x in f.variables)
    && (forall x, site :: x in f.variables && site in f.variables[x] ==> Reset(site) in evs)
    && (forall site :: site in f.escapes ==> Reset(site) in evs)
  }

  /** After any prefix of the visit, the facts so far satisfy every event so far but the early reads. */
  lemma {:induction false} PrefixConforms(evs: seq<Event>, n: nat)
    requires AssignedOnce(evs) && Introduced(evs) && n <= |evs|
    ensures var f := ApplyAll(NOTHING, evs[..n]); SitesSeen(f, evs[..n]) && ConformsFrom(f, evs[..n], {})
    decreases n
  {
    if n > 0 {
      PrefixConforms(evs, n - 1);
      var before, ev := ApplyAll(NOTHING, evs[..n-1]), evs[n-1];
      assert evs[..n] == evs[..n-1] + [ev];
      ApplyThen(NOTHING, evs[..n-1], ev);
      NextConforms(evs, n - 1, before);
    }
  }

  lemma {:induction false} NextConforms(evs: seq<Event>, n: nat, f: Facts)
    requires AssignedOnce(evs) && Introduced(evs) && n < |evs|
    requires SitesSeen(f, evs[..n]) && ConformsFrom(f, evs[..n], {})
    ensures var f' := Apply(f, evs[n]); SitesSeen(f', evs[..n+1]) && ConformsFrom(f', evs[..n+1], {})
  {
    var ev := evs[n];
    var f' := Apply(f, ev);
    assert evs[..n+1] == evs[..n] + [ev];
    forall site | !ev.Reset? && site in Potential(f, ev.src)
      ensures Reset(site) in evs[..n]
    {
      if ev.src.FromSite? { assert Reset(evs[n].src.site) in evs[..n]; }
    }
    assert ev.Reset? ==> ev !in evs[..n];
    NewHolds(evs, n, f);
    var front := evs[..n+1];
    forall i | 0 <= i < |front|
      ensures Holds(f', front[i]) || ReadsOutside(front[i], {} + Flows(front[..i]))
    {
      assert front[..i] == evs[..i] && front[i] == evs[i];
      if i < n {
        assert evs[..n][i] == evs[i] && evs[..n][..i] == evs[..i];
        OldHolds(evs, n, f, i);
      }
    }
  }

  lemma {:induction false} NewHolds(evs: seq<Event>, n: nat, f: Facts)
    requires n < |evs|
    ensures Holds(Apply(f, evs[n]), evs[n])
  {}

  lemma {:induction false} OldHolds(evs: seq<Event>, n: nat, f: Facts, i: nat)
    requires AssignedOnce(evs) && i < n < |evs|
    requires SitesSeen(f, evs[..n])
    requires evs[n].Reset? ==> evs[n] !in evs[..n]
    requires Holds(f, evs[i]) || ReadsOutside(evs[i], {} + Flows(evs[..i]))
    ensures Holds(Apply(f, evs[n]), evs[i]) || ReadsOutside(evs[i], {} + Flows(evs[..i]))
  {
    if evs[n].Flow? && Reads(evs[i], evs[n].x) {
      assert forall j :: 0 <= j < i ==> evs[..i][j] == evs[j];
    }
  }

  lemma {:induction false} FinalFactsConform(body: seq<Stmt>)
    requires AssignedOnce(AllEvents(body))
    ensures var f := ApplyAll(NOTHING, AllEvents(body));
            SitesSeen(f, AllEvents(body)) && ConformsFrom(f, AllEvents(body), {})
  {
    var evs := AllEvents(body);
    BodyIntroduced(body);
    PrefixConforms(evs, |evs|);
    assert evs[..|evs|] == evs;
  }

  // ---------------------------------------------------------------- runs stay within the facts

  ghost predicate Within(f: Facts, src: Source, v: Value) {
    v.Object? ==> v.site in Potential(f, src) + f.escapes
  }

  ghost predicate Harmless(f: Facts, v: Value) {
    v.Object? ==> v.site in f.escapes
  }

  /** Variables hold only objects the facts allow, those outside `written` only flagged ones, and only flagged
      objects have leaked. */
  ghost predicate Safe(f: Facts, st: State, written: set<Variable>) {
    && (forall x :: x in st.env ==> Within(f, FromVariable(x), st.env[x]))
    && (forall x :: x in st.env && x !in written ==> Harmless(f, st.env[x]))
    && st.leaked <= f.escapes
  }

  /** What is known of a value whose source the visitor looks at. */
  ghost predicate Comes(f: Facts, src: Source, v: Value, written: set<Variable>) {
    Within(f, src, v) && (src.FromVariable? && src.x !in written ==> Harmless(f, v))
  }

  lemma {:induction false} SafeLater(f: Facts, st: State, written: set<Variable>, more: set<Variable>)
    requires Safe(f, st, written) && written <= more
    ensures Safe(f, st, more)
  {}

  lemma {:induction false} AssignSafe(f: Facts, st: State, x: Variable, src: Source, v: Value, written: set<Variable>)
    requires Safe(f, st, written) && Comes(f, src, v, written)
    requires Holds(f, Flow(x, src)) || ReadsOutside(Flow(x, src), written)
    ensures Safe(f, st.(env := st.env[x := v]), written + {x})
  {}

  lemma {:induction false} LeakSafe(f: Facts, st: State, src: Source, v: Value, written: set<Variable>)
    requires Safe(f, st, written) && Comes(f, src, v, written)
    requires Holds(f, Sink(src)) || ReadsOutside(Sink(src), written)
    ensures Safe(f, Leak(st, v), written)
  {}

  /** The events of `e` and the use of its value, taken apart. */
  lemma {:induction false} UseInTwo(f: Facts, e: Expr, use: Event, written: set<Variable>)
    requires ConformsFrom(f, Events(e) + [use], written)
    ensures ConformsFrom(f, Events(e), written)
    ensures Holds(f, use) || ReadsOutside(use, written + Flows(Events(e)))
    ensures Flows(Events(e) + [use]) == Flows(Events(e)) + (if use.Flow? then {use.x} else {})
  {
    ConformsInTwo(f, Events(e), [use], written);
    assert [use][..0] == [] && Flows([]) == {};
    assert [use][0] == use;
    assert Flows([use]) == if use.Flow? then {use.x} else {};
  }

  ghost predicate EvalsSafely(f: Facts, r: Outcome, e: Expr, written: set<Variable>) {
    && Safe(f, r.st, written + Flows(Events(e)))
    && (r.v.Some? && Tracked(e) ==> Comes(f, SourceOf(e), r.v.value, written + Flows(Events(e))))
  }

  lemma {:induction false} EvalSafe(f: Facts, o: Oracle, st: State, e: Expr, written: set<Variable>)
    requires ConformsFrom(f, Events(e), written) && FlowsTracked(e) && Safe(f, st, written)
    ensures EvalsSafely(f, Eval(o, st, e), e, written)
    decreases e
  {
    match e
    case New(site, args) =>
      ConformsInTwo(f, [Reset(site)], SinkEvents(args), written);
      assert Flows([Reset(site)]) == {} && written + {} == written;
      SinksSafe(f, o, st, args, written);
    case Ident(_) => assert written + Flows([]) == written;
    case Literal => assert written + Flows([]) == written;
    case Assign(x, v) =>
      UseInTwo(f, v, Flow(x, SourceOf(v)), written);
      EvalSafe(f, o, st, v, written);
      var r := Eval(o, st, v);
      var later := written + Flows(Events(v));
      assert written + Flows(Events(e)) == later + {x};
      if r.v.Some? {
        AssignSafe(f, r.st, x, SourceOf(v), r.v.value, later);
      } else {
        SafeLater(f, r.st, later, later + {x});
      }
    case Store(_, v) =>
      UseInTwo(f, v, Sink(SourceOf(v)), written);
      EvalSafe(f, o, st, v, written);
      var r := Eval(o, st, v);
      if r.v.Some? { LeakSafe(f, r.st, SourceOf(v), r.v.value, written + Flows(Events(v))); }
    case Call(callee, args) => CallSafe(f, o, st, e, written);
    case Load(b) => EvalSafe(f, o, st, b, written);
    case ListLiteral(es) => SinksSafe(f, o, st, es, written);
    case Binary(_, _) => BinarySafe(f, o, st, e, written);
    case Cond(_, _, _) => CondSafe(f, o, st, e, written);
  }

  lemma {:induction false} CallSafe(f: Facts, o: Oracle, st: State, e: Expr, written: set<Variable>)
    requires e.Call? && ConformsFrom(f, Events(e), written) && FlowsTracked(e) && Safe(f, st, written)
    ensures EvalsSafely(f, Eval(o, st, e), e, written)
    decreases e, 0
  {
    ConformsInTwo(f, Events(e.callee), SinkEvents(e.args), written);
    EvalSafe(f, o, st, e.callee, written);
    var c := Eval(o, st, e.callee);
    var later := written + Flows(Events(e.callee));
    assert later + Flows(SinkEvents(e.args)) == written + Flows(Events(e));
    SinksSafe(f, o, c.st, e.args, later);
    SafeLater(f, c.st, later, written + Flows(Events(e)));
  }

  lemma {:induction false} BinarySafe(f: Facts, o: Oracle, st: State, e: Expr, written: set<Variable>)
    requires e.Binary? && ConformsFrom(f, Events(e), written) && FlowsTracked(e) && Safe(f, st, written)
    ensures EvalsSafely(f, Eval(o, st, e), e, written)
    decreases e, 0
  {
    ConformsInTwo(f, Events(e.left), Events(e.right), written);
    EvalSafe(f, o, st, e.left, written);
    var l := Eval(o, st, e.left);
    var later := written + Flows(Events(e.left));
    assert later + Flows(Events(e.right)) == written + Flows(Events(e));
    EvalSafe(f, o, l.st, e.right, later);
    SafeLater(f, l.st, later, written + Flows(Events(e)));
  }

  lemma {:induction false} CondSafe(f: Facts, o: Oracle, st: State, e: Expr, written: set<Variable>)
    requires e.Cond? && ConformsFrom(f, Events(e), written) && FlowsTracked(e) && Safe(f, st, written)
    ensures EvalsSafely(f, Eval(o, st, e), e, written)
    decreases e, 0
  {
    var front := Events(e.test) + Events(e.whenTrue);
    ConformsInTwo(f, front, Events(e.whenFalse), written);
    ConformsInTwo(f, Events(e.test), Events(e.whenTrue), written);
    EvalSafe(f, o, st, e.test, written);
    var a := Eval(o, st, e.test);
    var (c, st1) := Draw(o, a.st);
    var later, all := written + Flows(Events(e.test)), written + Flows(Events(e));
    SafeLater(f, a.st, later, all);
    if c.branch {
      EvalSafe(f, o, st1, e.whenTrue, later);
      SafeLater(f, Eval(o, st1, e.whenTrue).st, later + Flows(Events(e.whenTrue)), all);
    } else {
      assert written + Flows(front) == later + Flows(Events(e.whenTrue));
      SafeLater(f, st1, later, written + Flows(front));
      EvalSafe(f, o, st1, e.whenFalse, written + Flows(front));
      assert written + Flows(front) + Flows(Events(e.whenFalse)) == all;
    }
  }

  lemma {:induction false} SinksSafe(f: Facts, o: Oracle, st: State, es: seq<Expr>, written: set<Variable>)
    requires ConformsFrom(f, SinkEvents(es), written) && AllTracked(es) && Safe(f, st, written)
    ensures Safe(f, EvalSinks(o, st, es).1, written + Flows(SinkEvents(es)))
    decreases es
  {
    if es == [] {
      assert written + Flows([]) == written;
    } else {
      var e := es[0];
      var head := Events(e) + [Sink(SourceOf(e))];
      ConformsInTwo(f, head, SinkEvents(es[1..]), written);
      UseInTwo(f, e, Sink(SourceOf(e)), written);
      EvalSafe(f, o, st, e, written);
      var r := Eval(o, st, e);
      var later, all := written + Flows(Events(e)), written + Flows(SinkEvents(es));
      assert written + Flows(head) == later;
      if r.v.Some? {
        LeakSafe(f, r.st, SourceOf(e), r.v.value, later);
        SinksSafe(f, o, Leak(r.st, r.v.value), es[1..], later);
        assert later + Flows(SinkEvents(es[1..])) == all;
      } else {
        SafeLater(f, r.st, later, all);
      }
    }
  }

  // ---------------------------------------------------------------- statements

  ghost predicate After(f: Facts, st: State, evs: seq<Event>, written: set<Variable>) {
    Safe(f, st, written + Flows(evs))
  }

  lemma {:induction false} ExecSafe(f: Facts, o: Oracle, st: State, s: Stmt, fuel: nat, written: set<Variable>)
    requires ConformsFrom(f, StmtEvents(s), written) && StmtTracked(s) && StmtStable(f, s) && Safe(f, st, written)
    ensures After(f, Exec(o, st, s, fuel).1, StmtEvents(s), written)
    decreases fuel, s, 2
  {
    match s
    case ExprStmt(e) => EvalSafe(f, o, st, e, written);
    case Decl(_, _) => DeclSafe(f, o, st, s, fuel, written);
    case Block(ss) => BodySafe(f, o, st, ss, fuel, written);
    case If(_, _, _) => IfSafe(f, o, st, s, fuel, written);
    case While(_, _) => WhileSafe(f, o, st, s, fuel, written);
    case For(_, _, _, _) => ForSafe(f, o, st, s, fuel, written);
    case ForOf(_, _, _) => ForOfSafe(f, o, st, s, fuel, written);
    case Return(e) => LeavingSafe(f, o, st, e, written);
    case Throw(e) => LeavingSafe(f, o, st, e, written);
    case Break => SafeLater(f, st, written, written + Flows([]));
    case Continue => SafeLater(f, st, written, written + Flows([]));
    case Try(_, _, _) => TrySafe(f, o, st, s, fuel, written);
  }

  lemma {:induction false} DeclSafe(f: Facts, o: Oracle, st: State, s: Stmt, fuel: nat, written: set<Variable>)
    requires s.Decl? && ConformsFrom(f, StmtEvents(s), written) && StmtTracked(s) && Safe(f, st, written)
    ensures After(f, Exec(o, st, s, fuel).1, StmtEvents(s), written)
  {
    if s.init.Some? {
      var v := s.init.value;
      UseInTwo(f, v, Flow(s.x, SourceOf(v)), written);
      EvalSafe(f, o, st, v, written);
      var r := Eval(o, st, v);
      var later := written + Flows(Events(v));
      assert written + Flows(StmtEvents(s)) == later + {s.x};
      if r.v.Some? {
        AssignSafe(f, r.st, s.x, SourceOf(v), r.v.value, later);
      } else {
        SafeLater(f, r.st, later, later + {s.x});
      }
    } else {
      SafeLater(f, Exec(o, st, s, fuel).1, written, written + Flows([]));
    }
  }

  lemma {:induction false} WhileSafe(f: Facts, o: Oracle, st: State, s: Stmt, fuel: nat, written: set<Variable>)
    requires s.While? && ConformsFrom(f, StmtEvents(s), written) && StmtTracked(s) && StmtStable(f, s)
    requires Safe(f, st, written)
    ensures After(f, Exec(o, st, s, fuel).1, StmtEvents(s), written)
    decreases fuel, s, 1, 1
  {
    assert StmtEvents(s) == [] + Repeated(s);
    SafeLater(f, st, written, written + Flows([]));
    RepeatSafe(f, o, st, [], s, fuel, written);
  }

  lemma {:induction false} ForSafe(f: Facts, o: Oracle, st: State, s: Stmt, fuel: nat, written: set<Variable>)
    requires s.For? && ConformsFrom(f, StmtEvents(s), written) && StmtTracked(s) && StmtStable(f, s)
    requires Safe(f, st, written)
    ensures After(f, Exec(o, st, s, fuel).1, StmtEvents(s), written)
    decreases fuel, s, 1, 1
  {
    assert StmtEvents(s) == StmtEvents(s.start) + Repeated(s);
    ConformsInTwo(f, StmtEvents(s.start), Repeated(s), written);
    ExecSafe(f, o, st, s.start, fuel, written);
    RepeatSafe(f, o, Exec(o, st, s.start, fuel).1, StmtEvents(s.start), s, fuel, written);
  }

  lemma {:induction false} ForOfSafe(f: Facts, o: Oracle, st: State, s: Stmt, fuel: nat, written: set<Variable>)
    requires s.ForOf? && ConformsFrom(f, StmtEvents(s), written) && StmtTracked(s) && StmtStable(f, s)
    requires Safe(f, st, written)
    ensures After(f, Exec(o, st, s, fuel).1, StmtEvents(s), written)
    decreases fuel, s, 1, 1
  {
    ConformsInTwo(f, Events(s.list), Repeated(s), written);
    EvalSafe(f, o, st, s.list, written);
    RepeatSafe(f, o, Eval(o, st, s.list).st, Events(s.list), s, fuel, written);
  }

  lemma {:induction false} LeavingSafe(f: Facts, o: Oracle, st: State, e: Expr, written: set<Variable>)
    requires ConformsFrom(f, Events(e) + [Sink(SourceOf(e))], written) && Tracked(e) && FlowsTracked(e)
    requires Safe(f, st, written)
    ensures var r := Eval(o, st, e);
            var all := written + Flows(Events(e) + [Sink(SourceOf(e))]);
            Safe(f, r.st, all) && (r.v.Some? ==> Safe(f, Leak(r.st, r.v.value), all))
  {
    UseInTwo(f, e, Sink(SourceOf(e)), written);
    EvalSafe(f, o, st, e, written);
    var r := Eval(o, st, e);
    if r.v.Some? { LeakSafe(f, r.st, SourceOf(e), r.v.value, written + Flows(Events(e))); }
  }

  lemma {:induction false} IfSafe(f: Facts, o: Oracle, st: State, s: Stmt, fuel: nat, written: set<Variable>)
    requires s.If? && ConformsFrom(f, StmtEvents(s), written) && StmtTracked(s) && StmtStable(f, s)
             && Safe(f, st, written)
    ensures After(f, Exec(o, st, s, fuel).1, StmtEvents(s), written)
    decreases fuel, s, 1
  {
    var front := Events(s.test) + StmtEvents(s.thn);
    ConformsInTwo(f, front, StmtEvents(s.els), written);
    ConformsInTwo(f, Events(s.test), StmtEvents(s.thn), written);
    EvalSafe(f, o, st, s.test, written);
    var a := Eval(o, st, s.test);
    var (c, st1) := Draw(o, a.st);
    var later, all := written + Flows(Events(s.test)), written + Flows(StmtEvents(s));
    SafeLater(f, a.st, later, all);
    if c.branch {
      ExecSafe(f, o, st1, s.thn, fuel, later);
      SafeLater(f, Exec(o, st1, s.thn, fuel).1, later + Flows(StmtEvents(s.thn)), all);
    } else {
      assert written + Flows(front) == later + Flows(StmtEvents(s.thn));
      SafeLater(f, st1, later, written + Flows(front));
      ExecSafe(f, o, st1, s.els, fuel, written + Flows(front));
      assert written + Flows(front) + Flows(StmtEvents(s.els)) == all;
    }
  }

  lemma {:induction false} BodySafe(f: Facts, o: Oracle, st: State, ss: seq<Stmt>, fuel: nat, written: set<Variable>)
    requires ConformsFrom(f, AllEvents(ss), written) && BodyTracked(ss) && BodyStable(f, ss) && Safe(f, st, written)
    ensures After(f, ExecAll(o, st, ss, fuel).1, AllEvents(ss), written)
    decreases fuel, ss, 3
  {
    if ss == [] {
      assert written + Flows([]) == written;
    } else {
      ConformsInTwo(f, StmtEvents(ss[0]), AllEvents(ss[1..]), written);
      ExecSafe(f, o, st, ss[0], fuel, written);
      var (c, st1) := Exec(o, st, ss[0], fuel);
      var later, all := written + Flows(StmtEvents(ss[0])), written + Flows(AllEvents(ss));
      assert later + Flows(AllEvents(ss[1..])) == all;
      BodySafe(f, o, st1, ss[1..], fuel, later);
      SafeLater(f, st1, later, all);
    }
  }

  lemma {:induction false} TrySafe(f: Facts, o: Oracle, st: State, s: Stmt, fuel: nat, written: set<Variable>)
    requires s.Try? && ConformsFrom(f, StmtEvents(s), written) && StmtTracked(s) && StmtStable(f, s)
             && Safe(f, st, written)
    ensures After(f, Exec(o, st, s, fuel).1, StmtEvents(s), written)
    decreases fuel, s, 1
  {
    var front := AllEvents(s.tryBlock) + AllEvents(s.handler);
    ConformsInTwo(f, front, AllEvents(s.finalizer), written);
    ConformsInTwo(f, AllEvents(s.tryBlock), AllEvents(s.handler), written);
    var a1, a2 := written + Flows(AllEvents(s.tryBlock)), written + Flows(front);
    var all := written + Flows(StmtEvents(s));
    assert a2 == a1 + Flows(AllEvents(s.handler)) && all == a2 + Flows(AllEvents(s.finalizer));
    BodySafe(f, o, st, s.tryBlock, fuel, written);
    var (c, st1) := ExecAll(o, st, s.tryBlock, fuel);
    BodySafe(f, o, st1, s.handler, fuel, a1);
    SafeLater(f, st1, a1, a2);
    var (d, st2) := if c.Throws? then ExecAll(o, st1, s.handler, fuel) else (c, st1);
    BodySafe(f, o, st2, s.finalizer, fuel, a2);
    SafeLater(f, st2, a2, all);
  }

  // ---------------------------------------------------------------- loops

  /** With everything the loop assigns counted as written, any part of it conforms at any time. */
  ghost predicate Steady(f: Facts, evs: seq<Event>, written: set<Variable>) {
    && Flows(evs) <= written
    && forall i :: 0 <= i < |evs| ==> Holds(f, evs[i]) || ReadsOutside(evs[i], written)
  }

  lemma {:induction false} SteadyInTwo(f: Facts, a: seq<Event>, b: seq<Event>, written: set<Variable>)
    requires Steady(f, a + b, written)
    ensures Steady(f, a, written) && Steady(f, b, written)
  {
    FlowsTwo(a, b);
    assert forall i :: 0 <= i < |a| ==> (a + b)[i] == a[i];
    assert forall i :: 0 <= i < |b| ==> (a + b)[|a| + i] == b[i];
  }

  lemma {:induction false} SteadyConforms(f: Facts, evs: seq<Event>, written: set<Variable>)
    requires Steady(f, evs, written)
    ensures ConformsFrom(f, evs, written) && written + Flows(evs) == written
  {
    forall i | 0 <= i < |evs|
      ensures Holds(f, evs[i]) || ReadsOutside(evs[i], written + Flows(evs[..i]))
    {
      FlowsTwo(evs[..i], evs[i..]);
      assert evs[..i] + evs[i..] == evs;
    }
  }

  lemma {:induction false} StableIsSteady(f: Facts, evs: seq<Event>, written: set<Variable>)
    requires ConformsFrom(f, evs, written) && LoopStable(f, evs)
    ensures Steady(f, evs, written + Flows(evs))
  {}

  /** The repeated part of a loop, after its one-time part `first`. */
  lemma {:induction false} RepeatSafe(f: Facts, o: Oracle, st: State, first: seq<Event>, s: Stmt, fuel: nat,
                                      written: set<Variable>)
    requires s.While? || s.For? || s.ForOf?
    requires StmtEvents(s) == first + Repeated(s) && StmtTracked(s) && StmtStable(f, s)
    requires ConformsFrom(f, StmtEvents(s), written) && Safe(f, st, written + Flows(first))
    ensures After(f, st, StmtEvents(s), written) && After(f, Loop(o, st, s, fuel).1, StmtEvents(s), written)
    decreases fuel, s, 1, 0
  {
    ConformsInTwo(f, first, Repeated(s), written);
    var later, all := written + Flows(first), written + Flows(StmtEvents(s));
    assert later + Flows(Repeated(s)) == all;
    StableIsSteady(f, Repeated(s), later);
    SafeLater(f, st, later, all);
    LoopSafe(f, o, st, s, fuel, all);
  }

  lemma {:induction false} TestSafe(f: Facts, o: Oracle, st: State, s: Stmt, written: set<Variable>)
    requires s.While? || s.For? || s.ForOf?
    requires Steady(f, Repeated(s), written) && StmtTracked(s) && Safe(f, st, written)
    ensures Safe(f, Test(o, st, s).1, written)
  {
    if !s.ForOf? {
      var rest := if s.While? then StmtEvents(s.body) else Events(s.step) + StmtEvents(s.body);
      assert Repeated(s) == Events(s.test) + rest;
      SteadyInTwo(f, Events(s.test), rest, written);
      SteadyConforms(f, Events(s.test), written);
      EvalSafe(f, o, st, s.test, written);
    }
  }

  lemma {:induction false} BodySteady(f: Facts, s: Stmt, written: set<Variable>)
    requires s.While? || s.For? || s.ForOf?
    requires Steady(f, Repeated(s), written)
    ensures ConformsFrom(f, StmtEvents(s.body), written) && written + Flows(StmtEvents(s.body)) == written
    ensures s.For? ==> ConformsFrom(f, Events(s.step), written) && written + Flows(Events(s.step)) == written
  {
    var front := if s.ForOf? then [] else if s.While? then Events(s.test) else Events(s.test) + Events(s.step);
    assert Repeated(s) == front + StmtEvents(s.body);
    SteadyInTwo(f, front, StmtEvents(s.body), written);
    SteadyConforms(f, StmtEvents(s.body), written);
    if s.For? {
      SteadyInTwo(f, Events(s.test), Events(s.step), written);
      SteadyConforms(f, Events(s.step), written);
    }
  }

  /** One pass of the body, and in a `for` the step. */
  lemma {:induction false} PassSafe(f: Facts, o: Oracle, st: State, s: Stmt, fuel: nat, written: set<Variable>)
    requires s.While? || s.For? || s.ForOf?
    requires Steady(f, Repeated(s), written) && StmtTracked(s) && StmtStable(f, s) && Safe(f, st, written)
    ensures var st' := Exec(o, st, s.body, fuel).1;
            Safe(f, st', written) && (s.For? ==> Safe(f, Eval(o, st', s.step).st, written))
    decreases fuel, s, 0, 0
  {
    BodySteady(f, s, written);
    ExecSafe(f, o, st, s.body, fuel, written);
    if s.For? { EvalSafe(f, o, Exec(o, st, s.body, fuel).1, s.step, written); }
  }

  lemma {:induction false} LoopSafe(f: Facts, o: Oracle, st: State, s: Stmt, fuel: nat, written: set<Variable>)
    requires s.While? || s.For? || s.ForOf?
    requires Steady(f, Repeated(s), written) && StmtTracked(s) && StmtStable(f, s) && Safe(f, st, written)
    ensures Safe(f, Loop(o, st, s, fuel).1, written)
    decreases fuel, s, 0, 1
  {
    TestSafe(f, o, st, s, written);
    var (go, st1) := Test(o, st, s);
    if go == Some(true) {
      PassSafe(f, o, st1, s, fuel, written);
      var (c, st2) := Exec(o, st1, s.body, fuel);
      if c.Normal? || c.Continues? {
        var r := if s.For? then Eval(o, st2, s.step) else Outcome(Some(Other), st2);
        if fuel > 0 { LoopSafe(f, o, r.st, s, fuel - 1, written); }
      }
    }
  }

  // ---------------------------------------------------------------- the theorem

  /** The facts after the visit of a body. */
  function FinalFacts(body: seq<Stmt>): Facts {
    ApplyAll(NOTHING, AllEvents(body))
  }

  /** In every run, whatever branches are taken, however often loops go round, and whatever calls hand back,
      only objects of flagged sites leave the function. */
  lemma {:induction false} OnlyFlaggedLeak(o: Oracle, body: seq<Stmt>, fuel: nat)
    requires AssignedOnce(AllEvents(body)) && BodyTracked(body) && BodyStable(FinalFacts(body), body)
    ensures Run(o, body, fuel).1.leaked <= Flagged(body)
  {
    FinalFactsConform(body);
    BodySafe(FinalFacts(body), o, State(map[], {}, 0), body, fuel, {});
  }

  // ---------------------------------------------------------------- stable by its text

  /** No variable is read and then takes its value. */
  predicate NoReadBeforeFlow(evs: seq<Event>) {
    forall i, j :: 0 <= i < j < |evs| && evs[j].Flow? ==> !Reads(evs[i], evs[j].x)
  }

  /** In no loop is a variable read before the loop assigns it. */
  predicate LoopsOrdered(s: Stmt) {
    match s
    case Block(ss) => AllLoopsOrdered(ss)
    case If(_, thn, els) => LoopsOrdered(thn) && LoopsOrdered(els)
    case While(_, body) => NoReadBeforeFlow(Repeated(s)) && LoopsOrdered(body)
    case For(start, _, _, body) => LoopsOrdered(start) && NoReadBeforeFlow(Repeated(s)) && LoopsOrdered(body)
    case ForOf(_, _, body) => NoReadBeforeFlow(Repeated(s)) && LoopsOrdered(body)
    case Try(b, h, fin) => AllLoopsOrdered(b) && AllLoopsOrdered(h) && AllLoopsOrdered(fin)
    case ExprStmt(_) | Decl(_, _) | Return(_) | Throw(_) | Break | Continue => true
  }

  predicate AllLoopsOrdered(ss: seq<Stmt>) {
    ss == [] || (LoopsOrdered(ss[0]) && AllLoopsOrdered(ss[1..]))
  }

  lemma {:induction false} OrderedIsStable(f: Facts, evs: seq<Event>, written: set<Variable>)
    requires ConformsFrom(f, evs, written) && NoReadBeforeFlow(evs) && Flows(evs) <= f.variables.Keys
    ensures LoopStable(f, evs)
  {
    forall i | 0 <= i < |evs| && ReadsOutside(evs[i], written + Flows(evs[..i])) && !Holds(f, evs[i])
      ensures evs[i].src.x !in Flows(evs)
    {
      var x := evs[i].src.x;
      forall j | 0 <= j < |evs| && evs[j].Flow?
        ensures evs[j].x != x
      {
        if j < i { assert evs[..i][j] == evs[j]; }
        if j > i { assert !Reads(evs[i], evs[j].x); }
        if j == i { assert evs[i].x in Flows(evs); }
      }
    }
  }

  lemma {:induction false} OrderedStmtIsStable(f: Facts, s: Stmt, written: set<Variable>)
    requires ConformsFrom(f, StmtEvents(s), written) && LoopsOrdered(s) && Flows(StmtEvents(s)) <= f.variables.Keys
    ensures StmtStable(f, s)
    decreases s, 0
  {
    match s
    case ExprStmt(_) =>
    case Decl(_, _) =>
    case Block(ss) => OrderedBodyIsStable(f, ss, written);
    case If(c, thn, els) =>
      ConformsInTwo(f, Events(c) + StmtEvents(thn), StmtEvents(els), written);
      ConformsInTwo(f, Events(c), StmtEvents(thn), written);
      OrderedStmtIsStable(f, thn, written + Flows(Events(c)));
      OrderedStmtIsStable(f, els, written + Flows(Events(c) + StmtEvents(thn)));
    case While(c, body) =>
      OrderedIsStable(f, Repeated(s), written);
      ConformsInTwo(f, Events(c), StmtEvents(body), written);
      OrderedStmtIsStable(f, body, written + Flows(Events(c)));
    case For(start, c, step, body) =>
      assert StmtEvents(s) == StmtEvents(start) + Repeated(s);
      ConformsInTwo(f, StmtEvents(start), Repeated(s), written);
      OrderedStmtIsStable(f, start, written);
      var later := written + Flows(StmtEvents(start));
      OrderedIsStable(f, Repeated(s), later);
      ConformsInTwo(f, Events(c) + Events(step), StmtEvents(body), later);
      OrderedStmtIsStable(f, body, later + Flows(Events(c) + Events(step)));
    case ForOf(_, list, body) =>
      ConformsInTwo(f, Events(list), StmtEvents(body), written);
      OrderedIsStable(f, Repeated(s), written + Flows(Events(list)));
      OrderedStmtIsStable(f, body, written + Flows(Events(list)));
    case Return(_) =>
    case Throw(_) =>
    case Break =>
    case Continue =>
    case Try(b, h, fin) =>
      ConformsInTwo(f, AllEvents(b) + AllEvents(h), AllEvents(fin), written);
      ConformsInTwo(f, AllEvents(b), AllEvents(h), written);
      OrderedBodyIsStable(f, b, written);
      OrderedBodyIsStable(f, h, written + Flows(AllEvents(b)));
      OrderedBodyIsStable(f, fin, written + Flows(AllEvents(b) + AllEvents(h)));
  }

  lemma {:induction false} OrderedBodyIsStable(f: Facts, ss: seq<Stmt>, written: set<Variable>)
    requires ConformsFrom(f, AllEvents(ss), written) && AllLoopsOrdered(ss) && Flows(AllEvents(ss)) <= f.variables.Keys
    ensures BodyStable(f, ss)
    decreases ss, 1
  {
    if ss != [] {
      ConformsInTwo(f, StmtEvents(ss[0]), AllEvents(ss[1..]), written);
      OrderedStmtIsStable(f, ss[0], written);
      OrderedBodyIsStable(f, ss[1..], written + Flows(StmtEvents(ss[0])));
    }
  }

  /** Where every variable is assigned once, only a read inside a loop before that loop's own assignment can hide a
      leak; in particular no body without loops can. */
  lemma {:induction false} OnlyFlaggedLeakIfOrdered(o: Oracle, body: seq<Stmt>, fuel: nat)
    requires AssignedOnce(AllEvents(body)) && BodyTracked(body) && AllLoopsOrdered(body)
    ensures Run(o, body, fuel).1.leaked <= Flagged(body)
  {
    FinalFactsConform(body);
    OrderedBodyIsStable(FinalFacts(body), body, {});
    OnlyFlaggedLeak(o, body, fuel);
  }
}
