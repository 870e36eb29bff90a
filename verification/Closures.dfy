/** Running a program with full lexical closures, and with closures erased. */
module Closures {
  import opened FastSyntax

  /** Lexical: a function keeps the frames it was created in.  Erased: a function is code alone, and a
      running function sees only its own frame and the module bindings. */
  datatype Mode = Lexical | Erased

  type FrameId = nat

  /** `code[0]` is the function, `code[1..]` the functions it is nested in, innermost first; `env` are the
      frames of the latter (empty when erased). */
  datatype Value = Undefined | Number(n: int) | Closure(code: seq<FunDef>, env: seq<FrameId>)

  type Frame = map<Ident, Value>

  datatype State = State(heap: seq<Frame>, globals: Frame)

  /** The running function, the functions around it, and the frames it can see; both empty at module level. */
  datatype Context = Context(code: seq<FunDef>, chain: seq<FrameId>)

  datatype Completion =
    | Yields(v: Value)
    | Normal
    | Breaks
    | Continues
    | Returns(v: Value)
    | Throws(v: Value)
    | Unsupported   // assignment to the name of a nested function
    | OutOfFuel

  // ---------------------------------------------------------------- names

  datatype Place = Cell(fid: FrameId) | FunctionName(code: seq<FunDef>, env: seq<FrameId>) | Global

  /** Walks outwards through the functions around the use of `x`.  A variable of the running function is in
      its own frame; one of an enclosing function is visible to lexical closures only; the name of a nested
      function is resolved statically. */
  function Find(mode: Mode, code: seq<FunDef>, chain: seq<FrameId>, x: Ident, own: bool): Place {
    if code == [] then Global
    else if x in Locals(code[0]) && chain != [] && (own || mode == Lexical) then Cell(chain[0])
    else
      var decl := DeclOfAll(code[0].body, x);
      if decl.Some? then
        FunctionName([decl.value] + code, if mode == Lexical then chain else [])
      else Find(mode, code[1..], if chain == [] then [] else chain[1..], x, false)
  }

  function Lookup(mode: Mode, ctx: Context, st: State, x: Ident): Completion {
    match Find(mode, ctx.code, ctx.chain, x, true)
    case Cell(fid) =>
      if fid < |st.heap| && x in st.heap[fid] then Yields(st.heap[fid][x]) else Throws(Undefined)
    case FunctionName(code, env) => Yields(Closure(code, env))
    case Global => if x in st.globals then Yields(st.globals[x]) else Throws(Undefined)
  }

  function Store(mode: Mode, ctx: Context, st: State, x: Ident, v: Value): (Completion, State) {
    match Find(mode, ctx.code, ctx.chain, x, true)
    case Cell(fid) =>
      if fid < |st.heap| then (Yields(v), st.(heap := st.heap[fid := st.heap[fid][x := v]]))
      else (Throws(Undefined), st)
    case FunctionName(_, _) => (Unsupported, st)
    case Global => (Yields(v), st.(globals := st.globals[x := v]))
  }

  /** The declaration of `x` itself: in the running function's frame, or among the module bindings. */
  function Declare(ctx: Context, st: State, x: Ident, v: Value): State {
    if ctx.chain == [] then st.(globals := st.globals[x := v])
    else if ctx.chain[0] < |st.heap| then st.(heap := st.heap[ctx.chain[0] := st.heap[ctx.chain[0]][x := v]])
    else st
  }

  // ---------------------------------------------------------------- calls

  /** The last parameter of that name takes the argument. */
  function ArgOf(params: seq<Ident>, args: seq<Value>, x: Ident): Value {
    if params == [] then Undefined
    else
      var last := |params| - 1;
      if params[last] == x then (if last < |args| then args[last] else Undefined)
      else ArgOf(params[..last], args, x)
  }

  function NewFrame(f: FunDef, args: seq<Value>): Frame {
    map x | x in Locals(f) :: ArgOf(f.params, args, x)
  }

  function CallContext(mode: Mode, code: seq<FunDef>, env: seq<FrameId>, fid: FrameId): Context {
    Context(code, if mode == Lexical then [fid] + env else [fid])
  }

  function CallResult(c: Completion): Completion {
    match c
    case Returns(v) => Yields(v)
    case Throws(_) | Unsupported | OutOfFuel => c
    case _ => Yields(Undefined)
  }

  // ---------------------------------------------------------------- evaluation

  predicate Truthy(v: Value) {
    v.Closure? || (v.Number? && v.n != 0)
  }

  function Apply(op: BinOp, a: Value, b: Value): Value {
    if !a.Number? || !b.Number? then Undefined
    else match op
      case Add => Number(a.n + b.n)
      case Sub => Number(a.n - b.n)
      case Mul => Number(a.n * b.n)
      case Less => Number(if a.n < b.n then 1 else 0)
  }

  function Eval(mode: Mode, ctx: Context, st: State, e: Expr, fuel: nat): (Completion, State)
    decreases fuel, e, 0
  {
    match e
    case Num(n) => (Yields(Number(n)), st)
    case Var(x) => (Lookup(mode, ctx, st, x), st)
    case Bin(op, l, r) =>
      var (a, st1) := Eval(mode, ctx, st, l, fuel);
      if !a.Yields? then (a, st1)
      else
        var (b, st2) := Eval(mode, ctx, st1, r, fuel);
        if !b.Yields? then (b, st2) else (Yields(Apply(op, a.v, b.v)), st2)
    case Cond(c, t, f) =>
      var (a, st1) := Eval(mode, ctx, st, c, fuel);
      if !a.Yields? then (a, st1) else Eval(mode, ctx, st1, if Truthy(a.v) then t else f, fuel)
    case Assign(x, v) =>
      var (a, st1) := Eval(mode, ctx, st, v, fuel);
      if !a.Yields? then (a, st1) else Store(mode, ctx, st1, x, a.v)
    case Call(callee, args) =>
      var (a, st1) := Eval(mode, ctx, st, callee, fuel);
      if !a.Yields? then (a, st1) else ApplyTo(mode, ctx, st1, a.v, args, fuel)
    case Fun(f) => (Yields(Closure([f] + ctx.code, if mode == Lexical then ctx.chain else [])), st)
  }

  /** Evaluates the arguments, then calls `v` if it is a function. */
  function ApplyTo(mode: Mode, ctx: Context, st: State, v: Value, args: seq<Expr>, fuel: nat): (Completion, State)
    decreases fuel, args, 2
  {
    var (c, vs, st1) := EvalArgs(mode, ctx, st, args, fuel);
    if !c.Normal? then (c, st1)
    else if !v.Closure? || v.code == [] then (Throws(Undefined), st1)
    else if fuel == 0 then (OutOfFuel, st1)
    else Invoke(mode, st1, v.code, v.env, vs, fuel - 1)
  }

  /** Runs the body of `code[0]` in a new frame. */
  function Invoke(mode: Mode, st: State, code: seq<FunDef>, env: seq<FrameId>, args: seq<Value>,
                  fuel: nat): (Completion, State)
    requires code != []
    decreases fuel, code, 3
  {
    var f := code[0];
    var entered := st.(heap := st.heap + [NewFrame(f, args)]);
    var (r, st1) := ExecAll(mode, CallContext(mode, code, env, |st.heap|), entered, f.body, fuel);
    (CallResult(r), st1)
  }

  function EvalArgs(mode: Mode, ctx: Context, st: State, args: seq<Expr>, fuel: nat): (Completion, seq<Value>, State)
    decreases fuel, args, 1
  {
    if args == [] then (Normal, [], st)
    else
      var (a, st1) := Eval(mode, ctx, st, args[0], fuel);
      if !a.Yields? then (a, [], st1)
      else
        var (c, vs, st2) := EvalArgs(mode, ctx, st1, args[1..], fuel);
        (c, [a.v] + vs, st2)
  }

  function Exec(mode: Mode, ctx: Context, st: State, s: Stmt, fuel: nat): (Completion, State)
    decreases fuel, s, 2
  {
    match s
    case ExprStmt(e) => Discard(Eval(mode, ctx, st, e, fuel))
    case VarDecl(x, init) =>
      if init.None? then (Normal, st)
      else
        var (a, st1) := Eval(mode, ctx, st, init.value, fuel);
        if !a.Yields? then (a, st1) else (Normal, Declare(ctx, st1, x, a.v))
    case Block(ss) => ExecAll(mode, ctx, st, ss, fuel)
    case If(c, thn, els) =>
      var (a, st1) := Eval(mode, ctx, st, c, fuel);
      if !a.Yields? then (a, st1) else Exec(mode, ctx, st1, if Truthy(a.v) then thn else els, fuel)
    case While(_, _) => Loop(mode, ctx, st, s, fuel)
    case For(start, _, _, _) =>
      var (a, st1) := Exec(mode, ctx, st, start, fuel);
      if !a.Normal? then (a, st1) else Loop(mode, ctx, st1, s, fuel)
    case Return(e) =>
      var (a, st1) := Eval(mode, ctx, st, e, fuel);
      (if a.Yields? then Returns(a.v) else a, st1)
    case Throw(e) =>
      var (a, st1) := Eval(mode, ctx, st, e, fuel);
      (if a.Yields? then Throws(a.v) else a, st1)
    case Break => (Breaks, st)
    case Continue => (Continues, st)
    case Try(_, _, _) =>
      var (a, st1) := Guarded(mode, ctx, st, s, fuel);
      Finally(mode, ctx, st1, s, a, fuel)
    case FunDecl(_) => (Normal, st)
  }

  /** The try block, and the handler if it throws. */
  function Guarded(mode: Mode, ctx: Context, st: State, s: Stmt, fuel: nat): (Completion, State)
    requires s.Try?
    decreases fuel, s, 0
  {
    var (a, st1) := ExecAll(mode, ctx, st, s.tryBlock, fuel);
    if a.Throws? then ExecAll(mode, ctx, st1, s.handler, fuel) else (a, st1)
  }

  /** The finalizer; its own completion wins unless it is normal. */
  function Finally(mode: Mode, ctx: Context, st: State, s: Stmt, c: Completion, fuel: nat): (Completion, State)
    requires s.Try?
    decreases fuel, s, 0
  {
    if c.Unsupported? || c.OutOfFuel? then (c, st)
    else
      var (d, st1) := ExecAll(mode, ctx, st, s.finalizer, fuel);
      (if d.Normal? then c else d, st1)
  }

  function Discard(r: (Completion, State)): (Completion, State) {
    (if r.0.Yields? then Normal else r.0, r.1)
  }

  function ExecAll(mode: Mode, ctx: Context, st: State, ss: seq<Stmt>, fuel: nat): (Completion, State)
    decreases fuel, ss, 3
  {
    if ss == [] then (Normal, st)
    else
      var (a, st1) := Exec(mode, ctx, st, ss[0], fuel);
      if !a.Normal? then (a, st1) else ExecAll(mode, ctx, st1, ss[1..], fuel)
  }

  /** The body and, in a `for`, the step; Breaks ends the loop, Normal goes on to the test. */
  function Iteration(mode: Mode, ctx: Context, st: State, s: Stmt, fuel: nat): (Completion, State)
    requires s.While? || s.For?
    decreases fuel, s, 0
  {
    var (b, st1) := Exec(mode, ctx, st, s.body, fuel);
    if !b.Normal? && !b.Continues? then (b, st1)
    else if s.For? then Discard(Eval(mode, ctx, st1, s.step, fuel))
    else (Normal, st1)
  }

  /** The iterations of a `while`, or of a `for` after its initializer. */
  function Loop(mode: Mode, ctx: Context, st: State, s: Stmt, fuel: nat): (Completion, State)
    requires s.While? || s.For?
    decreases fuel, s, 1
  {
    var (a, st1) := Eval(mode, ctx, st, s.test, fuel);
    if !a.Yields? then (a, st1)
    else if !Truthy(a.v) then (Normal, st1)
    else
      var (b, st2) := Iteration(mode, ctx, st1, s, fuel);
      if b.Breaks? then (Normal, st2)
      else if !b.Normal? then (b, st2)
      else if fuel == 0 then (OutOfFuel, st2)
      else Loop(mode, ctx, st2, s, fuel - 1)
  }

  // ---------------------------------------------------------------- whole programs

  /** The module bindings before the first statement: the hoisted functions. */
  function Hoisted(program: seq<Stmt>): Frame {
    map x | x in DeclNamesAll(program) && DeclOfAll(program, x).Some? :: Closure([DeclOfAll(program, x).value], [])
  }

  function DeclNames(s: Stmt): set<Ident> {
    match s
    case FunDecl(f) => {f.name}
    case Block(ss) => DeclNamesAll(ss)
    case If(_, thn, els) => DeclNames(thn) + DeclNames(els)
    case While(_, body) => DeclNames(body)
    case For(start, _, _, body) => DeclNames(start) + DeclNames(body)
    case Try(b, h, f) => DeclNamesAll(b) + DeclNamesAll(h) + DeclNamesAll(f)
    case ExprStmt(_) | VarDecl(_, _) | Return(_) | Throw(_) | Break | Continue => {}
  }

  function DeclNamesAll(ss: seq<Stmt>): set<Ident> {
    if ss == [] then {} else DeclNames(ss[0]) + DeclNamesAll(ss[1..])
  }

  function Run(mode: Mode, program: seq<Stmt>, fuel: nat): (Completion, State) {
    ExecAll(mode, Context([], []), State([], Hoisted(program)), program, fuel)
  }
}
