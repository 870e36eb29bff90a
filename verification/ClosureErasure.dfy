/** A program the capture check accepts runs the same with its closures erased. */
module ClosureErasure {
  import opened Closures
  import opened FastCheck
  import opened FastSyntax
  import opened Options

  // ---------------------------------------------------------------- erasure

  function EraseValue(v: Value): Value {
    if v.Closure? then Closure(v.code, []) else v
  }

  function EraseFrame(f: Frame): Frame {
    map x | x in f :: EraseValue(f[x])
  }

  function EraseState(st: State): State {
    State(seq(|st.heap|, i requires 0 <= i < |st.heap| => EraseFrame(st.heap[i])), EraseFrame(st.globals))
  }

  function EraseCompletion(c: Completion): Completion {
    match c
    case Yields(v) => Yields(EraseValue(v))
    case Returns(v) => Returns(EraseValue(v))
    case Throws(v) => Throws(EraseValue(v))
    case _ => c
  }

  function EraseContext(ctx: Context): Context {
    Context(ctx.code, if ctx.chain == [] then [] else [ctx.chain[0]])
  }

  function EraseAll(vs: seq<Value>): seq<Value> {
    seq(|vs|, i requires 0 <= i < |vs| => EraseValue(vs[i]))
  }

  // ---------------------------------------------------------------- where the checker has been

  function Frames(code: seq<FunDef>): seq<set<Ident>> {
    if code == [] then [] else Frames(code[1..]) + [Locals(code[0])]
  }

  function ScopeOf(code: seq<FunDef>): Scope {
    if code == [] then TOP else Scope(Some(Locals(code[0])), Frames(code[1..]))
  }

  /** The checker reported nothing in the body of `code[0]`, nor in those around it. */
  ghost predicate Accepted(code: seq<FunDef>) {
    code == [] || (StmtsErrors(code[0].body, ScopeOf(code)) == [] && Accepted(code[1..]))
  }

  lemma {:induction false} InsideIsScopeOf(code: seq<FunDef>, f: FunDef)
    ensures Inside(ScopeOf(code), f) == ScopeOf([f] + code)
  {
    assert ([f] + code)[1..] == code;
  }

  lemma {:induction false} DeclAccepted(s: Stmt, sc: Scope, x: Ident)
    requires StmtErrors(s, sc) == [] && DeclOf(s, x).Some?
    ensures FunErrors(DeclOf(s, x).value, sc) == []
  {
    match s
    case Block(ss) => DeclAllAccepted(ss, sc, x);
    case If(_, thn, els) =>
      if DeclOf(els, x).Some? { DeclAccepted(els, sc, x); } else { DeclAccepted(thn, sc, x); }
    case While(_, body) => DeclAccepted(body, sc, x);
    case For(start, _, _, body) =>
      if DeclOf(body, x).Some? { DeclAccepted(body, sc, x); } else { DeclAccepted(start, sc, x); }
    case Try(b, h, f) =>
      if DeclOfAll(f, x).Some? { DeclAllAccepted(f, sc, x); }
      else if DeclOfAll(h, x).Some? { DeclAllAccepted(h, sc, x); }
      else { DeclAllAccepted(b, sc, x); }
    case _ =>
  }

  lemma {:induction false} DeclAllAccepted(ss: seq<Stmt>, sc: Scope, x: Ident)
    requires StmtsErrors(ss, sc) == [] && DeclOfAll(ss, x).Some?
    ensures FunErrors(DeclOfAll(ss, x).value, sc) == []
  {
    if DeclOfAll(ss[1..], x).Some? { DeclAllAccepted(ss[1..], sc, x); } else { DeclAccepted(ss[0], sc, x); }
  }

  lemma {:induction false} NestedAccepted(code: seq<FunDef>, x: Ident)
    requires Accepted(code) && code != [] && DeclOfAll(code[0].body, x).Some?
    ensures Accepted([DeclOfAll(code[0].body, x).value] + code)
  {
    var f := DeclOfAll(code[0].body, x).value;
    DeclAllAccepted(code[0].body, ScopeOf(code), x);
    InsideIsScopeOf(code, f);
    assert ([f] + code)[1..] == code;
  }

  // ---------------------------------------------------------------- invariants of a lexical run

  /** Frame `env[i]` holds exactly the locals of function `code[i]`. */
  ghost predicate Linked(heap: seq<Frame>, code: seq<FunDef>, env: seq<FrameId>) {
    && |env| == |code|
    && forall i :: 0 <= i < |env| ==> env[i] < |heap| && heap[env[i]].Keys == Locals(code[i])
  }

  ghost predicate GoodValue(heap: seq<Frame>, v: Value) {
    v.Closure? ==> v.code != [] && Accepted(v.code) && Linked(heap, v.code[1..], v.env)
  }

  ghost predicate GoodFrame(heap: seq<Frame>, f: Frame) {
    forall x :: x in f ==> GoodValue(heap, f[x])
  }

  ghost predicate GoodState(st: State) {
    && (forall i :: 0 <= i < |st.heap| ==> GoodFrame(st.heap, st.heap[i]))
    && GoodFrame(st.heap, st.globals)
  }

  ghost predicate GoodContext(heap: seq<Frame>, ctx: Context) {
    Accepted(ctx.code) && Linked(heap, ctx.code, ctx.chain)
  }

  ghost predicate GoodCompletion(heap: seq<Frame>, c: Completion) {
    c.Yields? || c.Returns? || c.Throws? ==> GoodValue(heap, c.v)
  }

  /** Frames are added, never removed, and keep their variables. */
  ghost predicate Grows(h: seq<Frame>, h': seq<Frame>) {
    && |h| <= |h'|
    && forall i :: 0 <= i < |h| ==> h'[i].Keys == h[i].Keys
  }

  lemma {:induction false} GoodGrows(h: seq<Frame>, h': seq<Frame>, v: Value)
    requires Grows(h, h') && GoodValue(h, v)
    ensures GoodValue(h', v)
  {}

  lemma {:induction false} GoodFrameGrows(h: seq<Frame>, h': seq<Frame>, f: Frame)
    requires Grows(h, h') && GoodFrame(h, f)
    ensures GoodFrame(h', f)
  {
    forall x | x in f
      ensures GoodValue(h', f[x])
    {
      GoodGrows(h, h', f[x]);
    }
  }

  // ---------------------------------------------------------------- names

  lemma {:induction false} FramesHold(code: seq<FunDef>, x: Ident, i: nat)
    requires i < |code| && x in Locals(code[i])
    ensures InFrames(x, Frames(code))
    decreases |code|
  {
    var fs := Frames(code);
    if i == 0 {
      assert x in fs[|fs|-1];
    } else {
      FramesHold(code[1..], x, i - 1);
      var j :| 0 <= j < |Frames(code[1..])| && x in Frames(code[1..])[j];
      assert fs[j] == Frames(code[1..])[j];
    }
  }

  /** Outside the running function nothing but function names and module bindings is found. */
  lemma {:induction false} FindOutside(heap: seq<Frame>, code: seq<FunDef>, chain: seq<FrameId>, chain': seq<FrameId>,
                                       x: Ident)
    requires Linked(heap, code, chain) && Accepted(code)
    requires forall i :: 0 <= i < |code| ==> x !in Locals(code[i])
    ensures SamePlace(heap, Find(Lexical, code, chain, x, false), Find(Erased, code, chain', x, false))
    decreases |code|
  {
    if code != [] {
      if DeclOfAll(code[0].body, x).Some? {
        NestedAccepted(code, x);
        assert ([DeclOfAll(code[0].body, x).value] + code)[1..] == code;
      } else {
        FindOutside(heap, code[1..], chain[1..], if chain' == [] then [] else chain'[1..], x);
      }
    }
  }

  ghost predicate SamePlace(heap: seq<Frame>, p: Place, q: Place) {
    match p
    case Cell(_) => false
    case FunctionName(code, env) => q == FunctionName(code, []) && GoodValue(heap, Closure(code, env))
    case Global => q == Global
  }

  /** An accepted name is found in the running function's own frame by both, or in neither's frames. */
  lemma {:induction false} FindAccepted(heap: seq<Frame>, ctx: Context, x: Ident)
    requires GoodContext(heap, ctx) && IdentErrors(x, ScopeOf(ctx.code)) == []
    ensures var p := Find(Lexical, ctx.code, ctx.chain, x, true);
            var q := Find(Erased, ctx.code, EraseContext(ctx).chain, x, true);
            if ctx.code != [] && x in Locals(ctx.code[0]) then p == q == Cell(ctx.chain[0])
            else SamePlace(heap, p, q)
  {
    var code := ctx.code;
    if code != [] && x !in Locals(code[0]) {
      forall i | 0 <= i < |code|
        ensures x !in Locals(code[i])
      {
        if i > 0 && x in Locals(code[i]) { FramesHold(code[1..], x, i - 1); }
      }
      if DeclOfAll(code[0].body, x).Some? {
        NestedAccepted(code, x);
        assert ([DeclOfAll(code[0].body, x).value] + code)[1..] == code;
      } else {
        FindOutside(heap, code[1..], ctx.chain[1..], [], x);
      }
    }
  }

  // ---------------------------------------------------------------- agreement of results

  /** The erased result is the erasure of the lexical one, and the lexical state is still good. */
  ghost predicate Agrees(st: State, lex: (Completion, State), erased: (Completion, State)) {
    && erased == (EraseCompletion(lex.0), EraseState(lex.1))
    && GoodState(lex.1) && Grows(st.heap, lex.1.heap) && GoodCompletion(lex.1.heap, lex.0)
  }

  lemma {:induction false} AgreesFrom(st: State, st1: State, lex: (Completion, State), erased: (Completion, State))
    requires Agrees(st1, lex, erased) && Grows(st.heap, st1.heap)
    ensures Agrees(st, lex, erased)
  {}

  lemma {:induction false} LeaveAgrees(st: State, st1: State, lex: (Completion, State), erased: (Completion, State))
    requires Agrees(st1, lex, erased) && Grows(st.heap, st1.heap)
    ensures Agrees(st, (CallResult(lex.0), lex.1), (CallResult(erased.0), erased.1))
    ensures Agrees(st, Discard(lex), Discard(erased))
  {}

  /** The completion before a finalizer survives it. */
  lemma {:induction false} KeptAgrees(st: State, c: Completion, lex: (Completion, State), erased: (Completion, State))
    requires Agrees(st, lex, erased) && GoodCompletion(st.heap, c)
    ensures Agrees(st, (c, lex.1), (EraseCompletion(c), erased.1))
  {
    if c.Yields? || c.Returns? || c.Throws? { GoodGrows(st.heap, lex.1.heap, c.v); }
  }

  lemma {:induction false} LookupAgrees(ctx: Context, st: State, x: Ident)
    requires GoodContext(st.heap, ctx) && GoodState(st) && IdentErrors(x, ScopeOf(ctx.code)) == []
    ensures Agrees(st, (Lookup(Lexical, ctx, st, x), st),
                       (Lookup(Erased, EraseContext(ctx), EraseState(st), x), EraseState(st)))
  {
    FindAccepted(st.heap, ctx, x);
  }

  lemma {:induction false} WriteAgrees(st: State, fid: FrameId, x: Ident, v: Value)
    requires fid < |st.heap| && x in st.heap[fid] && GoodState(st) && GoodValue(st.heap, v)
    ensures var st' := st.(heap := st.heap[fid := st.heap[fid][x := v]]);
            var e := EraseState(st);
            && EraseState(st') == e.(heap := e.heap[fid := e.heap[fid][x := EraseValue(v)]])
            && GoodState(st') && Grows(st.heap, st'.heap) && GoodValue(st'.heap, v)
  {
    var st' := st.(heap := st.heap[fid := st.heap[fid][x := v]]);
    assert st.heap[fid][x := v].Keys == st.heap[fid].Keys;
    GoodGrows(st.heap, st'.heap, v);
    forall i | 0 <= i < |st'.heap|
      ensures GoodFrame(st'.heap, st'.heap[i])
    {
      GoodFrameGrows(st.heap, st'.heap, st.heap[i]);
    }
    GoodFrameGrows(st.heap, st'.heap, st.globals);
    assert EraseFrame(st.heap[fid][x := v]) == EraseFrame(st.heap[fid])[x := EraseValue(v)];
  }

  lemma {:induction false} GlobalAgrees(st: State, x: Ident, v: Value)
    requires GoodState(st) && GoodValue(st.heap, v)
    ensures var st' := st.(globals := st.globals[x := v]);
            var e := EraseState(st);
            && EraseState(st') == e.(globals := e.globals[x := EraseValue(v)])
            && GoodState(st') && GoodValue(st'.heap, v)
  {
    assert EraseFrame(st.globals[x := v]) == EraseFrame(st.globals)[x := EraseValue(v)];
  }

  lemma {:induction false} StoreAgrees(ctx: Context, st: State, x: Ident, v: Value)
    requires GoodContext(st.heap, ctx) && GoodState(st) && IdentErrors(x, ScopeOf(ctx.code)) == []
    requires GoodValue(st.heap, v)
    ensures Agrees(st, Store(Lexical, ctx, st, x, v),
                       Store(Erased, EraseContext(ctx), EraseState(st), x, EraseValue(v)))
  {
    FindAccepted(st.heap, ctx, x);
    if ctx.code != [] && x in Locals(ctx.code[0]) {
      WriteAgrees(st, ctx.chain[0], x, v);
    } else if Find(Lexical, ctx.code, ctx.chain, x, true).Global? {
      GlobalAgrees(st, x, v);
    }
  }

  lemma {:induction false} DeclareAgrees(ctx: Context, st: State, x: Ident, v: Value)
    requires GoodContext(st.heap, ctx) && GoodState(st) && GoodValue(st.heap, v)
    requires ctx.code != [] ==> x in Locals(ctx.code[0])
    ensures Agrees(st, (Normal, Declare(ctx, st, x, v)),
                       (Normal, Declare(EraseContext(ctx), EraseState(st), x, EraseValue(v))))
  {
    if ctx.chain == [] { GlobalAgrees(st, x, v); } else { WriteAgrees(st, ctx.chain[0], x, v); }
  }

  // ---------------------------------------------------------------- calls

  lemma {:induction false} ArgErased(params: seq<Ident>, vs: seq<Value>, x: Ident, heap: seq<Frame>)
    requires forall i :: 0 <= i < |vs| ==> GoodValue(heap, vs[i])
    ensures ArgOf(params, EraseAll(vs), x) == EraseValue(ArgOf(params, vs, x))
    ensures GoodValue(heap, ArgOf(params, vs, x))
    decreases |params|
  {
    if params != [] && params[|params|-1] != x { ArgErased(params[..|params|-1], vs, x, heap); }
  }

  lemma {:induction false} EnterAgrees(st: State, code: seq<FunDef>, env: seq<FrameId>, vs: seq<Value>)
    requires GoodState(st) && GoodValue(st.heap, Closure(code, env))
    requires forall i :: 0 <= i < |vs| ==> GoodValue(st.heap, vs[i])
    ensures code != []
    ensures var f := code[0];
            var st' := st.(heap := st.heap + [NewFrame(f, vs)]);
            var e := EraseState(st);
            var ctx := CallContext(Lexical, code, env, |st.heap|);
            && EraseState(st') == e.(heap := e.heap + [NewFrame(f, EraseAll(vs))])
            && CallContext(Erased, code, [], |e.heap|) == EraseContext(ctx)
            && GoodState(st') && Grows(st.heap, st'.heap) && GoodContext(st'.heap, ctx)
  {
    var f := code[0];
    var frame := NewFrame(f, vs);
    var h := st.heap + [frame];
    forall x | x in Locals(f)
      ensures ArgOf(f.params, EraseAll(vs), x) == EraseValue(frame[x]) && GoodValue(st.heap, frame[x])
    {
      ArgErased(f.params, vs, x, st.heap);
    }
    assert NewFrame(f, EraseAll(vs)) == EraseFrame(frame);
    assert GoodFrame(st.heap, frame);
    assert Grows(st.heap, h);
    forall i | 0 <= i < |h|
      ensures GoodFrame(h, h[i])
    {
      GoodFrameGrows(st.heap, h, h[i]);
    }
    GoodFrameGrows(st.heap, h, st.globals);
    var chain := [|st.heap|] + env;
    forall i | 0 <= i < |chain|
      ensures chain[i] < |h| && h[chain[i]].Keys == Locals(code[i])
    {
      if i > 0 { assert chain[i] == env[i-1] && code[i] == code[1..][i-1]; }
    }
  }

  // ---------------------------------------------------------------- the simulation

  ghost predicate Ready(ctx: Context, st: State) {
    GoodContext(st.heap, ctx) && GoodState(st)
  }

  lemma {:induction false} StillReady(ctx: Context, st: State, st': State)
    requires Ready(ctx, st) && GoodState(st') && Grows(st.heap, st'.heap)
    ensures Ready(ctx, st')
  {}

  /** The variables of `s` belong to the running function. */
  ghost predicate Owned(ctx: Context, vars: set<Ident>) {
    ctx.code != [] ==> vars <= Locals(ctx.code[0])
  }

  lemma {:induction false} EvalAgrees(ctx: Context, st: State, e: Expr, fuel: nat)
    requires Ready(ctx, st) && ExprErrors(e, ScopeOf(ctx.code)) == []
    ensures Agrees(st, Eval(Lexical, ctx, st, e, fuel), Eval(Erased, EraseContext(ctx), EraseState(st), e, fuel))
    decreases fuel, e, 1
  {
    match e
    case Num(_) =>
    case Var(x) => LookupAgrees(ctx, st, x);
    case Bin(_, _, _) => BinAgrees(ctx, st, e, fuel);
    case Cond(_, _, _) => CondAgrees(ctx, st, e, fuel);
    case Assign(_, _) => AssignAgrees(ctx, st, e, fuel);
    case Call(_, _) => CallAgrees(ctx, st, e, fuel);
    case Fun(f) =>
      InsideIsScopeOf(ctx.code, f);
      assert ([f] + ctx.code)[1..] == ctx.code;
  }

  lemma {:induction false} BinAgrees(ctx: Context, st: State, e: Expr, fuel: nat)
    requires e.Bin? && Ready(ctx, st) && ExprErrors(e, ScopeOf(ctx.code)) == []
    ensures Agrees(st, Eval(Lexical, ctx, st, e, fuel), Eval(Erased, EraseContext(ctx), EraseState(st), e, fuel))
    decreases fuel, e, 0
  {
    EvalAgrees(ctx, st, e.left, fuel);
    var (a, st1) := Eval(Lexical, ctx, st, e.left, fuel);
    if a.Yields? {
      StillReady(ctx, st, st1);
      EvalAgrees(ctx, st1, e.right, fuel);
    }
  }

  lemma {:induction false} CondAgrees(ctx: Context, st: State, e: Expr, fuel: nat)
    requires e.Cond? && Ready(ctx, st) && ExprErrors(e, ScopeOf(ctx.code)) == []
    ensures Agrees(st, Eval(Lexical, ctx, st, e, fuel), Eval(Erased, EraseContext(ctx), EraseState(st), e, fuel))
    decreases fuel, e, 0
  {
    EvalAgrees(ctx, st, e.test, fuel);
    var (a, st1) := Eval(Lexical, ctx, st, e.test, fuel);
    if a.Yields? {
      StillReady(ctx, st, st1);
      EvalAgrees(ctx, st1, if Truthy(a.v) then e.whenTrue else e.whenFalse, fuel);
    }
  }

  lemma {:induction false} AssignAgrees(ctx: Context, st: State, e: Expr, fuel: nat)
    requires e.Assign? && Ready(ctx, st) && ExprErrors(e, ScopeOf(ctx.code)) == []
    ensures Agrees(st, Eval(Lexical, ctx, st, e, fuel), Eval(Erased, EraseContext(ctx), EraseState(st), e, fuel))
    decreases fuel, e, 0
  {
    EvalAgrees(ctx, st, e.value, fuel);
    var (a, st1) := Eval(Lexical, ctx, st, e.value, fuel);
    if a.Yields? {
      StillReady(ctx, st, st1);
      StoreAgrees(ctx, st1, e.target, a.v);
    }
  }

  lemma {:induction false} CallAgrees(ctx: Context, st: State, e: Expr, fuel: nat)
    requires e.Call? && Ready(ctx, st) && ExprErrors(e, ScopeOf(ctx.code)) == []
    ensures Agrees(st, Eval(Lexical, ctx, st, e, fuel), Eval(Erased, EraseContext(ctx), EraseState(st), e, fuel))
    decreases fuel, e, 0
  {
    EvalAgrees(ctx, st, e.callee, fuel);
    var (a, st1) := Eval(Lexical, ctx, st, e.callee, fuel);
    if a.Yields? {
      StillReady(ctx, st, st1);
      ApplyAgrees(ctx, st1, a.v, e.args, fuel);
    }
  }

  lemma {:induction false} ApplyAgrees(ctx: Context, st: State, v: Value, args: seq<Expr>, fuel: nat)
    requires Ready(ctx, st) && ArgErrors(args, ScopeOf(ctx.code)) == [] && GoodValue(st.heap, v)
    ensures Agrees(st, ApplyTo(Lexical, ctx, st, v, args, fuel),
                       ApplyTo(Erased, EraseContext(ctx), EraseState(st), EraseValue(v), args, fuel))
    decreases fuel, args, 2
  {
    ArgsAgree(ctx, st, args, fuel);
    var (c, vs, st1) := EvalArgs(Lexical, ctx, st, args, fuel);
    var lex := ApplyTo(Lexical, ctx, st, v, args, fuel);
    var erased := ApplyTo(Erased, EraseContext(ctx), EraseState(st), EraseValue(v), args, fuel);
    if !c.Normal? || !v.Closure? || fuel == 0 {
      assert erased == (EraseCompletion(lex.0), EraseState(lex.1));
    } else {
      GoodGrows(st.heap, st1.heap, v);
      InvokeAgrees(st1, v.code, v.env, vs, fuel - 1);
      assert erased == Invoke(Erased, EraseState(st1), v.code, [], EraseAll(vs), fuel - 1);
      AgreesFrom(st, st1, lex, erased);
    }
  }

  lemma {:induction false} InvokeAgrees(st: State, code: seq<FunDef>, env: seq<FrameId>, vs: seq<Value>, fuel: nat)
    requires GoodState(st) && GoodValue(st.heap, Closure(code, env))
    requires forall i :: 0 <= i < |vs| ==> GoodValue(st.heap, vs[i])
    ensures code != []
    ensures Agrees(st, Invoke(Lexical, st, code, env, vs, fuel),
                       Invoke(Erased, EraseState(st), code, [], EraseAll(vs), fuel))
    decreases fuel, code, 3
  {
    EnterAgrees(st, code, env, vs);
    var ctx := CallContext(Lexical, code, env, |st.heap|);
    var st' := st.(heap := st.heap + [NewFrame(code[0], vs)]);
    AllAgree(ctx, st', code[0].body, fuel);
    LeaveAgrees(st, st', ExecAll(Lexical, ctx, st', code[0].body, fuel),
                ExecAll(Erased, EraseContext(ctx), EraseState(st'), code[0].body, fuel));
  }

  ghost predicate ArgsMatch(st: State, lex: (Completion, seq<Value>, State), erased: (Completion, seq<Value>, State)) {
    && erased == (EraseCompletion(lex.0), EraseAll(lex.1), EraseState(lex.2))
    && GoodState(lex.2) && Grows(st.heap, lex.2.heap) && GoodCompletion(lex.2.heap, lex.0)
    && forall i :: 0 <= i < |lex.1| ==> GoodValue(lex.2.heap, lex.1[i])
  }

  lemma {:induction false} ArgsAgree(ctx: Context, st: State, args: seq<Expr>, fuel: nat)
    requires Ready(ctx, st) && ArgErrors(args, ScopeOf(ctx.code)) == []
    ensures ArgsMatch(st, EvalArgs(Lexical, ctx, st, args, fuel),
                      EvalArgs(Erased, EraseContext(ctx), EraseState(st), args, fuel))
    decreases fuel, args, 1
  {
    assert EraseAll([]) == [];
    if args != [] {
      EvalAgrees(ctx, st, args[0], fuel);
      var (a, st1) := Eval(Lexical, ctx, st, args[0], fuel);
      if a.Yields? {
        StillReady(ctx, st, st1);
        ArgsAgree(ctx, st1, args[1..], fuel);
        ArgsCons(st, st1, a.v, EvalArgs(Lexical, ctx, st1, args[1..], fuel));
      }
    }
  }

  /** One more argument in front. */
  lemma {:induction false} ArgsCons(st: State, st1: State, v: Value, rest: (Completion, seq<Value>, State))
    requires Grows(st.heap, st1.heap) && GoodValue(st1.heap, v)
    requires ArgsMatch(st1, rest, (EraseCompletion(rest.0), EraseAll(rest.1), EraseState(rest.2)))
    ensures EraseAll([v] + rest.1) == [EraseValue(v)] + EraseAll(rest.1)
    ensures ArgsMatch(st, (rest.0, [v] + rest.1, rest.2),
                          (EraseCompletion(rest.0), EraseAll([v] + rest.1), EraseState(rest.2)))
  {
    GoodGrows(st1.heap, rest.2.heap, v);
  }

  lemma {:induction false} ExecAgrees(ctx: Context, st: State, s: Stmt, fuel: nat)
    requires Ready(ctx, st) && StmtErrors(s, ScopeOf(ctx.code)) == [] && Owned(ctx, LocalsOf(s))
    ensures Agrees(st, Exec(Lexical, ctx, st, s, fuel), Exec(Erased, EraseContext(ctx), EraseState(st), s, fuel))
    decreases fuel, s, 3
  {
    match s
    case ExprStmt(e) => EvalAgrees(ctx, st, e, fuel);
    case Return(e) => EvalAgrees(ctx, st, e, fuel);
    case Throw(e) => EvalAgrees(ctx, st, e, fuel);
    case VarDecl(_, _) => VarDeclAgrees(ctx, st, s, fuel);
    case Block(ss) => AllAgree(ctx, st, ss, fuel);
    case If(_, _, _) => IfAgrees(ctx, st, s, fuel);
    case While(_, _) => LoopAgrees(ctx, st, s, fuel);
    case For(_, _, _, _) => ForAgrees(ctx, st, s, fuel);
    case Break =>
    case Continue =>
    case Try(_, _, _) => TryAgrees(ctx, st, s, fuel);
    case FunDecl(_) =>
  }

  lemma {:induction false} ForAgrees(ctx: Context, st: State, s: Stmt, fuel: nat)
    requires s.For?
    requires Ready(ctx, st) && StmtErrors(s, ScopeOf(ctx.code)) == [] && Owned(ctx, LocalsOf(s))
    ensures Agrees(st, Exec(Lexical, ctx, st, s, fuel), Exec(Erased, EraseContext(ctx), EraseState(st), s, fuel))
    decreases fuel, s, 2
  {
    ExecAgrees(ctx, st, s.start, fuel);
    var (a, st1) := Exec(Lexical, ctx, st, s.start, fuel);
    if a.Normal? {
      StillReady(ctx, st, st1);
      LoopAgrees(ctx, st1, s, fuel);
    }
  }

  lemma {:induction false} TryAgrees(ctx: Context, st: State, s: Stmt, fuel: nat)
    requires s.Try?
    requires Ready(ctx, st) && StmtErrors(s, ScopeOf(ctx.code)) == [] && Owned(ctx, LocalsOf(s))
    ensures Agrees(st, Exec(Lexical, ctx, st, s, fuel), Exec(Erased, EraseContext(ctx), EraseState(st), s, fuel))
    decreases fuel, s, 1
  {
    GuardedAgrees(ctx, st, s, fuel);
    var (a, st1) := Guarded(Lexical, ctx, st, s, fuel);
    StillReady(ctx, st, st1);
    FinallyAgrees(ctx, st1, s, a, fuel);
  }

  lemma {:induction false} VarDeclAgrees(ctx: Context, st: State, s: Stmt, fuel: nat)
    requires s.VarDecl?
    requires Ready(ctx, st) && StmtErrors(s, ScopeOf(ctx.code)) == [] && Owned(ctx, LocalsOf(s))
    ensures Agrees(st, Exec(Lexical, ctx, st, s, fuel), Exec(Erased, EraseContext(ctx), EraseState(st), s, fuel))
    decreases fuel, s, 0
  {
    if s.init.Some? {
      EvalAgrees(ctx, st, s.init.value, fuel);
      var (a, st1) := Eval(Lexical, ctx, st, s.init.value, fuel);
      if a.Yields? {
        StillReady(ctx, st, st1);
        DeclareAgrees(ctx, st1, s.x, a.v);
      }
    }
  }

  lemma {:induction false} IfAgrees(ctx: Context, st: State, s: Stmt, fuel: nat)
    requires s.If?
    requires Ready(ctx, st) && StmtErrors(s, ScopeOf(ctx.code)) == [] && Owned(ctx, LocalsOf(s))
    ensures Agrees(st, Exec(Lexical, ctx, st, s, fuel), Exec(Erased, EraseContext(ctx), EraseState(st), s, fuel))
    decreases fuel, s, 0
  {
    EvalAgrees(ctx, st, s.test, fuel);
    var (a, st1) := Eval(Lexical, ctx, st, s.test, fuel);
    if a.Yields? {
      StillReady(ctx, st, st1);
      ExecAgrees(ctx, st1, if Truthy(a.v) then s.thn else s.els, fuel);
    }
  }

  lemma {:induction false} GuardedAgrees(ctx: Context, st: State, s: Stmt, fuel: nat)
    requires s.Try?
    requires Ready(ctx, st) && StmtErrors(s, ScopeOf(ctx.code)) == [] && Owned(ctx, LocalsOf(s))
    ensures Agrees(st, Guarded(Lexical, ctx, st, s, fuel), Guarded(Erased, EraseContext(ctx), EraseState(st), s, fuel))
    decreases fuel, s, 0
  {
    AllAgree(ctx, st, s.tryBlock, fuel);
    var (a, st1) := ExecAll(Lexical, ctx, st, s.tryBlock, fuel);
    if a.Throws? {
      StillReady(ctx, st, st1);
      AllAgree(ctx, st1, s.handler, fuel);
    }
  }

  lemma {:induction false} FinallyAgrees(ctx: Context, st: State, s: Stmt, c: Completion, fuel: nat)
    requires s.Try? && GoodCompletion(st.heap, c)
    requires Ready(ctx, st) && StmtErrors(s, ScopeOf(ctx.code)) == [] && Owned(ctx, LocalsOf(s))
    ensures Agrees(st, Finally(Lexical, ctx, st, s, c, fuel),
                       Finally(Erased, EraseContext(ctx), EraseState(st), s, EraseCompletion(c), fuel))
    decreases fuel, s, 0
  {
    if !c.Unsupported? && !c.OutOfFuel? {
      AllAgree(ctx, st, s.finalizer, fuel);
      var lex := ExecAll(Lexical, ctx, st, s.finalizer, fuel);
      var erased := ExecAll(Erased, EraseContext(ctx), EraseState(st), s.finalizer, fuel);
      assert Finally(Lexical, ctx, st, s, c, fuel) == (if lex.0.Normal? then c else lex.0, lex.1);
      if lex.0.Normal? { KeptAgrees(st, c, lex, erased); }
    }
  }

  lemma {:induction false} AllAgree(ctx: Context, st: State, ss: seq<Stmt>, fuel: nat)
    requires Ready(ctx, st) && StmtsErrors(ss, ScopeOf(ctx.code)) == [] && Owned(ctx, LocalsOfAll(ss))
    ensures Agrees(st, ExecAll(Lexical, ctx, st, ss, fuel),
                   ExecAll(Erased, EraseContext(ctx), EraseState(st), ss, fuel))
    decreases fuel, ss, 4
  {
    if ss != [] {
      ExecAgrees(ctx, st, ss[0], fuel);
      var (a, st1) := Exec(Lexical, ctx, st, ss[0], fuel);
      if a.Normal? {
        StillReady(ctx, st, st1);
        AllAgree(ctx, st1, ss[1..], fuel);
      }
    }
  }

  lemma {:induction false} StepAgrees(st: State, st1: State, lex: (Completion, State), erased: (Completion, State))
    requires Agrees(st1, lex, erased) && Grows(st.heap, st1.heap)
    ensures Agrees(st, Discard(lex), Discard(erased))
  {
    AgreesFrom(st, st1, lex, erased);
  }

  lemma {:induction false} IterationAgrees(ctx: Context, st: State, s: Stmt, fuel: nat)
    requires s.While? || s.For?
    requires Ready(ctx, st) && StmtErrors(s, ScopeOf(ctx.code)) == [] && Owned(ctx, LocalsOf(s))
    ensures Agrees(st, Iteration(Lexical, ctx, st, s, fuel),
                   Iteration(Erased, EraseContext(ctx), EraseState(st), s, fuel))
    decreases fuel, s, 0
  {
    ExecAgrees(ctx, st, s.body, fuel);
    var (b, st1) := Exec(Lexical, ctx, st, s.body, fuel);
    if (b.Normal? || b.Continues?) && s.For? {
      StillReady(ctx, st, st1);
      EvalAgrees(ctx, st1, s.step, fuel);
      StepAgrees(st, st1, Eval(Lexical, ctx, st1, s.step, fuel),
                 Eval(Erased, EraseContext(ctx), EraseState(st1), s.step, fuel));
      assert Iteration(Lexical, ctx, st, s, fuel) == Discard(Eval(Lexical, ctx, st1, s.step, fuel));
    } else {
      assert Iteration(Lexical, ctx, st, s, fuel) == (if b.Continues? then Normal else b, st1);
    }
  }

  lemma {:induction false} LoopAgrees(ctx: Context, st: State, s: Stmt, fuel: nat)
    requires s.While? || s.For?
    requires Ready(ctx, st) && StmtErrors(s, ScopeOf(ctx.code)) == [] && Owned(ctx, LocalsOf(s))
    ensures Agrees(st, Loop(Lexical, ctx, st, s, fuel), Loop(Erased, EraseContext(ctx), EraseState(st), s, fuel))
    decreases fuel, s, 1
  {
    EvalAgrees(ctx, st, s.test, fuel);
    var (a, st1) := Eval(Lexical, ctx, st, s.test, fuel);
    var lex, erased := Loop(Lexical, ctx, st, s, fuel), Loop(Erased, EraseContext(ctx), EraseState(st), s, fuel);
    if !a.Yields? || !Truthy(a.v) {
      assert erased == (EraseCompletion(lex.0), EraseState(lex.1));
    } else {
      StillReady(ctx, st, st1);
      IterationAgrees(ctx, st1, s, fuel);
      var (b, st2) := Iteration(Lexical, ctx, st1, s, fuel);
      if b.Normal? && fuel > 0 {
        StillReady(ctx, st, st2);
        LoopAgrees(ctx, st2, s, fuel - 1);
        assert erased == Loop(Erased, EraseContext(ctx), EraseState(st2), s, fuel - 1);
        AgreesFrom(st, st2, lex, erased);
      }
    }
  }

  // ---------------------------------------------------------------- the theorem

  lemma {:induction false} HoistedIsGood(program: seq<Stmt>)
    requires StmtsErrors(program, TOP) == []
    ensures GoodState(State([], Hoisted(program)))
    ensures EraseState(State([], Hoisted(program))) == State([], Hoisted(program))
  {
    var g := Hoisted(program);
    forall x | x in g
      ensures GoodValue([], g[x])
    {
      var f := DeclOfAll(program, x).value;
      DeclAllAccepted(program, TOP, x);
      InsideIsScopeOf([], f);
      assert [f] + [] == [f];
      assert [f][1..] == [];
    }
    assert EraseFrame(g) == g;
    assert EraseState(State([], g)).heap == [];
  }

  /** If the checker reports no capture, then for every amount of fuel the program run with closures erased
      completes as, and ends in the erasure of the state of, the program run with full lexical closures. */
  lemma {:induction false} AcceptedRunsErased(program: seq<Stmt>, fuel: nat)
    requires StmtsErrors(program, TOP) == []
    ensures var (c, st) := Run(Lexical, program, fuel);
            Run(Erased, program, fuel) == (EraseCompletion(c), EraseState(st))
  {
    HoistedIsGood(program);
    AllAgree(Context([], []), State([], Hoisted(program)), program, fuel);
  }
}
