/** Why captures are rejected: a reported program whose two runs differ. */
module CaptureExample {
  import opened Closures
  import opened FastCheck
  import opened FastSyntax
  import opened Options

  const READ_X := FunDef("g", [], [Return(Var("x"))])

  /** `function f() { var x = 1; function g() { return x; } return g(); }` */
  const OUTER := FunDef("f", [], [VarDecl("x", Some(Num(1))), FunDecl(READ_X), Return(Call(Var("g"), []))])

  const CALL_G := Return(Call(Var("g"), []))

  const CALL_F := ExprStmt(Call(Var("f"), []))

  /** The declaration of `f`, and `f();` */
  const PROGRAM := [FunDecl(OUTER), CALL_F]

  lemma {:induction false} OuterLocals()
    ensures Locals(OUTER) == {"x"} && Locals(READ_X) == {}
    ensures DeclOfAll(OUTER.body, "x") == None && DeclOfAll(READ_X.body, "x") == None
  {
    var body := OUTER.body;
    assert body[1..] == [FunDecl(READ_X), CALL_G];
    assert body[1..][1..] == [CALL_G];
    assert body[1..][1..][1..] == [];
    assert LocalsOfAll(body[1..][1..]) == {} && LocalsOfAll(body[1..]) == {};
    assert DeclOfAll(body[1..][1..], "x") == None && DeclOfAll(body[1..], "x") == None;
    assert READ_X.body[1..] == [];
    assert LocalsOfAll(body) == {"x"} && LocalsOfAll(READ_X.body) == {};
    assert OUTER.params == [] && READ_X.params == [];
    assert Locals(OUTER) == {"x"};
  }

  /** The check reports the use of `x` in `g`. */
  lemma {:induction false} ReportsX()
    ensures StmtsErrors(PROGRAM, TOP) == ["x"]
  {
    OuterLocals();
    var sc := Inside(TOP, OUTER);
    var inner := Inside(sc, READ_X);
    assert inner.frames == [{"x"}] && "x" in inner.frames[0];
    assert ExprErrors(Var("x"), inner) == ["x"];
    assert READ_X.body[1..] == [] && StmtsErrors(READ_X.body, inner) == ["x"];
    assert StmtErrors(FunDecl(READ_X), sc) == ["x"];
    assert StmtErrors(CALL_G, sc) == [] by {
      assert ExprErrors(Var("g"), sc) == [] && ArgErrors([], sc) == [];
    }
    var body := OUTER.body;
    assert body[1..] == [FunDecl(READ_X), CALL_G] && body[1..][1..] == [CALL_G] && body[1..][1..][1..] == [];
    assert StmtsErrors(body[1..][1..], sc) == [];
    assert StmtsErrors(body[1..], sc) == StmtErrors(FunDecl(READ_X), sc) + [] == ["x"];
    assert StmtErrors(VarDecl("x", Some(Num(1))), sc) == [];
    assert StmtsErrors(body, sc) == ["x"];
    assert StmtErrors(FunDecl(OUTER), TOP) == ["x"];
    assert StmtErrors(CALL_F, TOP) == [] by { assert ArgErrors([], TOP) == []; }
    assert PROGRAM[1..] == [CALL_F] && PROGRAM[1..][1..] == [];
    assert StmtsErrors(PROGRAM[1..], TOP) == [];
  }

  /** Calling `g` from inside `f` yields the value of `x` lexically, and finds no `x` once closures are erased. */
  lemma {:induction false} InnerCallDiffers(mode: Mode, st: State, env: seq<FrameId>, fuel: nat)
    requires env == (if mode == Lexical then [0] else [])
    requires |st.heap| == 1 && st.heap[0] == map["x" := Number(1)] && "x" !in st.globals
    ensures Invoke(mode, st, [READ_X, OUTER], env, [], fuel).0
         == if mode == Lexical then Yields(Number(1)) else Throws(Undefined)
  {
    OuterLocals();
    var st' := st.(heap := st.heap + [NewFrame(READ_X, [])]);
    var ctx := CallContext(mode, [READ_X, OUTER], env, 1);
    assert [READ_X, OUTER][1..] == [OUTER] && [OUTER][1..] == [];
    assert ctx.chain[1..] == env;
    assert Find(mode, [OUTER], env, "x", false) == if mode == Lexical then Cell(0) else Global;
    assert Find(mode, ctx.code, ctx.chain, "x", true) == if mode == Lexical then Cell(0) else Global;
    assert Eval(mode, ctx, st', Var("x"), fuel).0 == if mode == Lexical then Yields(Number(1)) else Throws(Undefined);
    assert Exec(mode, ctx, st', READ_X.body[0], fuel).0 ==
           if mode == Lexical then Returns(Number(1)) else Throws(Undefined);
  }

  // ---------------------------------------------------------------- whole runs

  function Answer(mode: Mode): Completion {
    if mode == Lexical then Yields(Number(1)) else Throws(Undefined)
  }

  const BEFORE: State := State([map["x" := Number(1)]], map["f" := Closure([OUTER], [])])

  lemma {:induction false} FindG(mode: Mode)
    ensures Find(mode, [OUTER], [0], "g", true) == FunctionName([READ_X, OUTER], if mode == Lexical then [0] else [])
  {
    OuterLocals();
    var body := OUTER.body;
    assert body[1..] == [FunDecl(READ_X), CALL_G] && body[1..][1..] == [CALL_G] && body[1..][1..][1..] == [];
    assert DeclOfAll(body[1..][1..], "g") == None && DeclOfAll(body[1..], "g") == Some(READ_X);
    assert DeclOfAll(body, "g") == Some(READ_X);
    assert [READ_X] + [OUTER] == [READ_X, OUTER];
  }

  /** `return g();` in the body of `f`. */
  lemma {:induction false} CallsG(mode: Mode, fuel: nat)
    requires fuel >= 1
    ensures Exec(mode, Context([OUTER], [0]), BEFORE, CALL_G, fuel).0
         == if mode == Lexical then Returns(Number(1)) else Throws(Undefined)
  {
    var ctx, env := Context([OUTER], [0]), if mode == Lexical then [0] else [];
    FindG(mode);
    InnerCallDiffers(mode, BEFORE, env, fuel - 1);
    assert Eval(mode, ctx, BEFORE, Var("g"), fuel) == (Yields(Closure([READ_X, OUTER], env)), BEFORE);
    assert EvalArgs(mode, ctx, BEFORE, [], fuel) == (Normal, [], BEFORE);
    assert ApplyTo(mode, ctx, BEFORE, Closure([READ_X, OUTER], env), [], fuel)
        == Invoke(mode, BEFORE, [READ_X, OUTER], env, [], fuel - 1);
    assert Eval(mode, ctx, BEFORE, Call(Var("g"), []), fuel).0 == Answer(mode);
  }

  /** The body of `f`, its frame as a call leaves it. */
  lemma {:induction false} BodyOfF(mode: Mode, fuel: nat)
    requires fuel >= 1
    ensures ExecAll(mode, Context([OUTER], [0]), BEFORE.(heap := [map["x" := Undefined]]), OUTER.body, fuel).0
         == if mode == Lexical then Returns(Number(1)) else Throws(Undefined)
  {
    var ctx, st, body := Context([OUTER], [0]), BEFORE.(heap := [map["x" := Undefined]]), OUTER.body;
    var rest := body[1..];
    assert body[0] == VarDecl("x", Some(Num(1))) && rest == [FunDecl(READ_X), CALL_G] && rest[1..] == [CALL_G];
    assert st.heap[0]["x" := Number(1)] == map["x" := Number(1)];
    assert Declare(ctx, st, "x", Number(1)) == BEFORE;
    assert Eval(mode, ctx, st, Num(1), fuel) == (Yields(Number(1)), st);
    assert Exec(mode, ctx, st, body[0], fuel) == (Normal, BEFORE);
    assert Exec(mode, ctx, BEFORE, rest[0], fuel) == (Normal, BEFORE);
    CallsG(mode, fuel);
    assert ExecAll(mode, ctx, BEFORE, rest[1..], fuel).0 == Exec(mode, ctx, BEFORE, CALL_G, fuel).0;
    assert ExecAll(mode, ctx, BEFORE, rest, fuel) == ExecAll(mode, ctx, BEFORE, rest[1..], fuel);
  }

  lemma {:induction false} CallOfF(mode: Mode, fuel: nat)
    requires fuel >= 2
    ensures Exec(mode, Context([], []), BEFORE.(heap := []), CALL_F, fuel).0
         == if mode == Lexical then Normal else Throws(Undefined)
  {
    OuterLocals();
    BodyOfF(mode, fuel - 1);
    var ctx, st := Context([], []), BEFORE.(heap := []);
    assert OUTER.params == [];
    assert NewFrame(OUTER, []) == map["x" := Undefined];
    assert st.heap + [NewFrame(OUTER, [])] == [map["x" := Undefined]];
    assert CallContext(mode, [OUTER], [], 0) == Context([OUTER], [0]);
    assert Eval(mode, ctx, st, Var("f"), fuel) == (Yields(Closure([OUTER], [])), st);
    assert EvalArgs(mode, ctx, st, [], fuel) == (Normal, [], st);
    assert [OUTER][0] == OUTER;
    assert Invoke(mode, st, [OUTER], [], [], fuel - 1).0 == Answer(mode);
    assert ApplyTo(mode, ctx, st, Closure([OUTER], []), [], fuel) == Invoke(mode, st, [OUTER], [], [], fuel - 1);
    assert Eval(mode, ctx, st, Call(Var("f"), []), fuel).0 == Answer(mode);
  }

  lemma {:induction false} HoistsF()
    ensures Hoisted(PROGRAM) == map["f" := Closure([OUTER], [])]
  {
    assert PROGRAM[1..] == [CALL_F] && PROGRAM[1..][1..] == [];
    assert DeclNamesAll(PROGRAM[1..]) == {} && DeclNames(PROGRAM[0]) == {"f"};
    assert DeclNamesAll(PROGRAM) == {"f"};
    assert DeclOfAll(PROGRAM[1..], "f") == None && DeclOfAll(PROGRAM, "f") == Some(OUTER);
  }

  /** With full closures the reported program ends normally; with closures erased it ends in a reference error. */
  lemma {:induction false} RunsDiffer(fuel: nat)
    requires fuel >= 2
    ensures Run(Lexical, PROGRAM, fuel).0 == Normal && Run(Erased, PROGRAM, fuel).0 == Throws(Undefined)
  {
    HoistsF();
    RunIsCall(Lexical, fuel);
    RunIsCall(Erased, fuel);
    CallOfF(Lexical, fuel);
    CallOfF(Erased, fuel);
  }

  lemma {:induction false} RunIsCall(mode: Mode, fuel: nat)
    requires Hoisted(PROGRAM) == map["f" := Closure([OUTER], [])]
    ensures Run(mode, PROGRAM, fuel).0 == Exec(mode, Context([], []), BEFORE.(heap := []), CALL_F, fuel).0
  {
    var ctx, st := Context([], []), BEFORE.(heap := []);
    var rest := PROGRAM[1..];
    assert PROGRAM[0] == FunDecl(OUTER) && rest == [CALL_F] && rest[1..] == [];
    assert Exec(mode, ctx, st, PROGRAM[0], fuel) == (Normal, st);
    assert ExecAll(mode, ctx, st, rest, fuel).0 == Exec(mode, ctx, st, CALL_F, fuel).0;
  }
}
