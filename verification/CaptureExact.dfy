/** What the capture check reports, exactly: the uses of a name that lead to a variable of an enclosing function, and
    those where a nested function's name hides one. */
module CaptureExact {
  import opened Closures
  import opened ClosureErasure
  import opened FastCheck
  import opened FastSyntax
  import opened Options

  // ---------------------------------------------------------------- the uses of a program

  /** A name read or written, inside the functions `code`, innermost first. */
  datatype Use = Use(x: Ident, code: seq<FunDef>)

  function UsesIn(e: Expr, code: seq<FunDef>): seq<Use> {
    match e
    case Num(_) => []
    case Var(x) => [Use(x, code)]
    case Bin(_, l, r) => UsesIn(l, code) + UsesIn(r, code)
    case Cond(c, t, f) => UsesIn(c, code) + UsesIn(t, code) + UsesIn(f, code)
    case Assign(x, v) => [Use(x, code)] + UsesIn(v, code)
    case Call(callee, args) => UsesIn(callee, code) + UsesInArgs(args, code)
    case Fun(f) => UsesInAll(f.body, [f] + code)
  }

  function UsesInArgs(args: seq<Expr>, code: seq<FunDef>): seq<Use> {
    if args == [] then [] else UsesIn(args[0], code) + UsesInArgs(args[1..], code)
  }

  function UsesInStmt(s: Stmt, code: seq<FunDef>): seq<Use> {
    match s
    case ExprStmt(e) => UsesIn(e, code)
    case VarDecl(_, init) => if init.Some? then UsesIn(init.value, code) else []
    case Block(ss) => UsesInAll(ss, code)
    case If(c, thn, els) => UsesIn(c, code) + UsesInStmt(thn, code) + UsesInStmt(els, code)
    case While(c, body) => UsesIn(c, code) + UsesInStmt(body, code)
    case For(start, c, step, body) =>
      UsesInStmt(start, code) + UsesIn(c, code) + UsesIn(step, code) + UsesInStmt(body, code)
    case Return(e) => UsesIn(e, code)
    case Throw(e) => UsesIn(e, code)
    case Break | Continue => []
    case Try(b, h, f) => UsesInAll(b, code) + UsesInAll(h, code) + UsesInAll(f, code)
    case FunDecl(f) => UsesInAll(f.body, [f] + code)
  }

  function UsesInAll(ss: seq<Stmt>, code: seq<FunDef>): seq<Use> {
    if ss == [] then [] else UsesInStmt(ss[0], code) + UsesInAll(ss[1..], code)
  }

  // ---------------------------------------------------------------- where a use leads

  /** One frame for each function around the use, the running function's own first. */
  function Chain(code: seq<FunDef>): seq<FrameId> {
    seq(|code|, i => i)
  }

  function PlaceOf(u: Use): Place {
    Find(Lexical, u.code, Chain(u.code), u.x, true)
  }

  /** It leads to a variable of an enclosing function. */
  predicate Captures(u: Use) {
    PlaceOf(u).Cell? && PlaceOf(u).fid != 0
  }

  /** It leads to a nested function, whose name hides a variable of a function further out. */
  ghost predicate Hides(u: Use) {
    PlaceOf(u).FunctionName? && exists i :: 0 <= i < |u.code| && u.x in Locals(u.code[i])
  }

  ghost predicate Reported(u: Use) {
    Captures(u) || Hides(u)
  }

  ghost function ReportedNames(us: seq<Use>): seq<Ident> {
    if us == [] then []
    else NameIfReported(us[0]) + ReportedNames(us[1..])
  }

  ghost function NameIfReported(u: Use): seq<Ident> {
    if Reported(u) then [u.x] else []
  }

  lemma {:induction false} ReportedTwo(a: seq<Use>, b: seq<Use>)
    ensures ReportedNames(a + b) == ReportedNames(a) + ReportedNames(b)
    decreases |a|
  {
    if a == [] {
      assert a + b == b;
    } else {
      ReportedTwo(a[1..], b);
      assert (a + b)[1..] == a[1..] + b && (a + b)[0] == a[0];
      var one := NameIfReported(a[0]);
      assert one + (ReportedNames(a[1..]) + ReportedNames(b)) == one + ReportedNames(a[1..]) + ReportedNames(b);
    }
  }

  // ---------------------------------------------------------------- one use

  lemma {:induction false} FramesAre(code: seq<FunDef>, x: Ident)
    ensures InFrames(x, Frames(code)) <==> exists i :: 0 <= i < |code| && x in Locals(code[i])
    decreases |code|
  {
    if code != [] {
      var rest := code[1..];
      FramesAre(rest, x);
      assert forall i :: 0 <= i < |rest| ==> rest[i] == code[i+1];
      if i :| 0 <= i < |code| && x in Locals(code[i]) { FramesHold(code, x, i); }
      if j :| 0 <= j < |Frames(code)| && x in Frames(code)[j] {
        if j < |Frames(rest)| {
          assert InFrames(x, Frames(rest));
          var i :| 0 <= i < |rest| && x in Locals(rest[i]);
          assert x in Locals(code[i+1]);
        } else {
          assert x in Locals(code[0]);
        }
      }
    }
  }

  /** From outside the running function a name leads to a variable, if there is one and no nested function of that name
      is met first. */
  lemma {:induction false} FindLeads(code: seq<FunDef>, chain: seq<FrameId>, x: Ident)
    requires |chain| == |code|
    ensures var p := Find(Lexical, code, chain, x, false);
            && (p.Cell? ==> p.fid in chain && exists i :: 0 <= i < |code| && x in Locals(code[i]))
            && (p.Global? ==> forall i :: 0 <= i < |code| ==> x !in Locals(code[i]))
    decreases |code|
  {
    if code != [] && x !in Locals(code[0]) && DeclOfAll(code[0].body, x).None? {
      FindLeads(code[1..], chain[1..], x);
      assert forall i :: 0 <= i < |code[1..]| ==> code[1..][i] == code[i+1];
      var p := Find(Lexical, code[1..], chain[1..], x, false);
      if p.Cell? {
        var i :| 0 <= i < |code[1..]| && x in Locals(code[1..][i]);
        assert x in Locals(code[i+1]);
      }
    }
  }

  lemma {:induction false} UseReported(u: Use)
    ensures IdentErrors(u.x, ScopeOf(u.code)) == NameIfReported(u)
  {
    var code, x, chain := u.code, u.x, Chain(u.code);
    if code != [] && x !in Locals(code[0]) {
      var rest := code[1..];
      FramesAre(rest, x);
      assert forall i :: 0 <= i < |rest| ==> rest[i] == code[i+1];
      FindLeads(rest, chain[1..], x);
      assert InFrames(x, Frames(rest)) <==> exists i :: 0 <= i < |code| && x in Locals(code[i]);
    }
  }

  // ---------------------------------------------------------------- the whole walk

  lemma {:induction false} ReportedThree(a: seq<Use>, b: seq<Use>, c: seq<Use>)
    ensures ReportedNames(a + b + c) == ReportedNames(a) + ReportedNames(b) + ReportedNames(c)
  {
    ReportedTwo(a + b, c);
    ReportedTwo(a, b);
  }

  lemma {:induction false} ExprReported(e: Expr, code: seq<FunDef>)
    ensures ExprErrors(e, ScopeOf(code)) == ReportedNames(UsesIn(e, code))
    decreases e
  {
    match e
    case Num(_) =>
    case Var(x) =>
      UseReported(Use(x, code));
      assert [Use(x, code)][1..] == [];
    case Bin(_, l, r) =>
      ExprReported(l, code);
      ExprReported(r, code);
      ReportedTwo(UsesIn(l, code), UsesIn(r, code));
    case Cond(c, t, f) =>
      ExprReported(c, code);
      ExprReported(t, code);
      ExprReported(f, code);
      ReportedThree(UsesIn(c, code), UsesIn(t, code), UsesIn(f, code));
    case Assign(x, v) =>
      UseReported(Use(x, code));
      ExprReported(v, code);
      assert ([Use(x, code)] + UsesIn(v, code))[1..] == UsesIn(v, code);
    case Call(callee, args) =>
      ExprReported(callee, code);
      ArgsReported(args, code);
      ReportedTwo(UsesIn(callee, code), UsesInArgs(args, code));
    case Fun(f) => BodyReported(f, code);
  }

  lemma {:induction false} ArgsReported(args: seq<Expr>, code: seq<FunDef>)
    ensures ArgErrors(args, ScopeOf(code)) == ReportedNames(UsesInArgs(args, code))
    decreases args
  {
    if args != [] {
      ExprReported(args[0], code);
      ArgsReported(args[1..], code);
      ReportedTwo(UsesIn(args[0], code), UsesInArgs(args[1..], code));
    }
  }

  lemma {:induction false} BodyReported(f: FunDef, code: seq<FunDef>)
    ensures FunErrors(f, ScopeOf(code)) == ReportedNames(UsesInAll(f.body, [f] + code))
    decreases f
  {
    InsideIsScopeOf(code, f);
    AllReported(f.body, [f] + code);
  }

  lemma {:induction false} StmtReported(s: Stmt, code: seq<FunDef>)
    ensures StmtErrors(s, ScopeOf(code)) == ReportedNames(UsesInStmt(s, code))
    decreases s
  {
    match s
    case ExprStmt(e) => ExprReported(e, code);
    case VarDecl(_, init) => if init.Some? { ExprReported(init.value, code); }
    case Block(ss) => AllReported(ss, code);
    case If(c, thn, els) =>
      ExprReported(c, code);
      StmtReported(thn, code);
      StmtReported(els, code);
      ReportedThree(UsesIn(c, code), UsesInStmt(thn, code), UsesInStmt(els, code));
    case While(c, body) =>
      ExprReported(c, code);
      StmtReported(body, code);
      ReportedTwo(UsesIn(c, code), UsesInStmt(body, code));
    case For(_, _, _, _) => ForReported(s, code);
    case Return(e) => ExprReported(e, code);
    case Throw(e) => ExprReported(e, code);
    case Break | Continue =>
    case Try(b, h, f) =>
      AllReported(b, code);
      AllReported(h, code);
      AllReported(f, code);
      ReportedThree(UsesInAll(b, code), UsesInAll(h, code), UsesInAll(f, code));
    case FunDecl(f) => BodyReported(f, code);
  }

  lemma {:induction false} ForReported(s: Stmt, code: seq<FunDef>)
    requires s.For?
    ensures StmtErrors(s, ScopeOf(code)) == ReportedNames(UsesInStmt(s, code))
    decreases s, 0
  {
    StmtReported(s.start, code);
    ExprReported(s.test, code);
    ExprReported(s.step, code);
    StmtReported(s.body, code);
    var start, test, step := UsesInStmt(s.start, code), UsesIn(s.test, code), UsesIn(s.step, code);
    ReportedThree(start, test, step);
    ReportedTwo(start + test + step, UsesInStmt(s.body, code));
  }

  lemma {:induction false} AllReported(ss: seq<Stmt>, code: seq<FunDef>)
    ensures StmtsErrors(ss, ScopeOf(code)) == ReportedNames(UsesInAll(ss, code))
    decreases ss
  {
    if ss != [] {
      StmtReported(ss[0], code);
      AllReported(ss[1..], code);
      ReportedTwo(UsesInStmt(ss[0], code), UsesInAll(ss[1..], code));
    }
  }

  // ---------------------------------------------------------------- programs

  /** The check reports, one by one and in the order of the text, the uses that capture a variable of an enclosing
      function or lead to a nested function whose name hides one; and no others. */
  lemma {:induction false} ReportsExactly(program: seq<Stmt>)
    ensures StmtsErrors(program, TOP) == ReportedNames(UsesInAll(program, []))
  {
    AllReported(program, []);
  }

  /** No function nested in one of these functions has the name of a variable of a function further out. */
  ghost predicate NoneHidden(code: seq<FunDef>) {
    forall i, j, x :: 0 <= i < j < |code| && x in Locals(code[j]) ==> DeclOfAll(code[i].body, x).None?
  }

  lemma {:induction false} NoneReported(us: seq<Use>)
    ensures ReportedNames(us) == [] <==> forall i :: 0 <= i < |us| ==> !Reported(us[i])
    decreases |us|
  {
    if us != [] {
      NoneReported(us[1..]);
      assert forall i :: 0 <= i < |us[1..]| ==> us[1..][i] == us[i+1];
      assert forall i :: 0 < i < |us| ==> us[i] == us[1..][i-1];
    }
  }

  /** What a name met from outside leads to is declared in one of the functions, inside of every variable so called. */
  lemma {:induction false} NameMetFirst(code: seq<FunDef>, chain: seq<FrameId>, x: Ident, own: bool)
    requires |chain| == |code| && Find(Lexical, code, chain, x, own).FunctionName?
    ensures exists i :: 0 <= i < |code| && DeclOfAll(code[i].body, x).Some?
                        && forall j :: 0 <= j <= i ==> x !in Locals(code[j])
    decreases |code|
  {
    if DeclOfAll(code[0].body, x).None? {
      NameMetFirst(code[1..], chain[1..], x, false);
      var i :| 0 <= i < |code[1..]| && DeclOfAll(code[1..][i].body, x).Some?
               && forall j :: 0 <= j <= i ==> x !in Locals(code[1..][j]);
      assert DeclOfAll(code[i+1].body, x).Some?;
      assert forall j :: 0 < j <= i + 1 ==> code[j] == code[1..][j-1];
    }
  }

  lemma {:induction false} NothingHidden(u: Use)
    requires NoneHidden(u.code)
    ensures !Hides(u)
  {
    if PlaceOf(u).FunctionName? {
      NameMetFirst(u.code, Chain(u.code), u.x, true);
    }
  }

  /** Where no nested function has the name of a variable further out, a program is accepted if and only if every use
      leads to the running function's own frame, a function or a module binding. */
  lemma {:induction false} AcceptedIffNoCapture(program: seq<Stmt>)
    requires forall i :: 0 <= i < |UsesInAll(program, [])| ==> NoneHidden(UsesInAll(program, [])[i].code)
    ensures StmtsErrors(program, TOP) == []
       <==> forall i :: 0 <= i < |UsesInAll(program, [])| ==> !Captures(UsesInAll(program, [])[i])
  {
    var us := UsesInAll(program, []);
    ReportsExactly(program);
    NoneReported(us);
    forall i | 0 <= i < |us|
      ensures !Hides(us[i])
    {
      NothingHidden(us[i]);
    }
  }

  // ---------------------------------------------------------------- shadowing

  const X_IS_1 := VarDecl("x", Some(Num(1)))
  const X_IS_2 := VarDecl("x", Some(Num(2)))
  const OWN_X := FunDef("g", [], [X_IS_2, Return(Var("x"))])
  const CALL_X := Return(Call(Var("x"), []))
  const FUNCTION_X := FunDef("x", [], [])
  const CALLS_X := FunDef("g", [], [FunDecl(FUNCTION_X), CALL_X])

  /** `function f() { var x = 1; g }`, `g` being a nested function. */
  function Around(g: FunDef): FunDef {
    FunDef("f", [], [X_IS_1, FunDecl(g)])
  }

  lemma {:induction false} AroundHasX(g: FunDef)
    ensures Locals(Around(g)) == {"x"}
    ensures StmtsErrors([FunDecl(Around(g))], TOP) == FunErrors(g, Inside(TOP, Around(g)))
    ensures UsesInAll([FunDecl(Around(g))], []) == UsesInAll(g.body, [g, Around(g)])
  {
    var f, sc := Around(g), Inside(TOP, Around(g));
    var body := f.body;
    assert body[1..] == [FunDecl(g)] && body[1..][1..] == [];
    assert LocalsOfAll(body[1..]) == {} && LocalsOfAll(body) == {"x"};
    assert f.params == [];
    assert StmtsErrors(body[1..], sc) == FunErrors(g, sc);
    assert ExprErrors(Num(1), sc) == [] && UsesIn(Num(1), [f]) == [];
    assert StmtErrors(body[0], sc) == [] && UsesInStmt(body[0], [f]) == [];
    assert StmtsErrors(body, sc) == FunErrors(g, sc);
    assert [FunDecl(f)][1..] == [] && StmtErrors(FunDecl(f), TOP) == StmtsErrors(body, sc);
    assert [f] + [] == [f] && [g] + [f] == [g, f];
    assert UsesInAll(body[1..], [f]) == UsesInAll(g.body, [g, f]) + [];
    assert UsesInAll(body, [f]) == UsesInAll(g.body, [g, f]);
  }

  lemma {:induction false} BodiesOfG()
    ensures Locals(OWN_X) == {"x"}
    ensures UsesInAll(OWN_X.body, [OWN_X, Around(OWN_X)]) == [Use("x", [OWN_X, Around(OWN_X)])]
    ensures Locals(CALLS_X) == {} && DeclOfAll(CALLS_X.body, "x").Some?
    ensures UsesInAll(CALLS_X.body, [CALLS_X, Around(CALLS_X)]) == [Use("x", [CALLS_X, Around(CALLS_X)])]
  {
    var a, b := OWN_X.body, CALLS_X.body;
    assert a[1..] == [Return(Var("x"))] && a[1..][1..] == [];
    assert LocalsOfAll(a[1..]) == {} && LocalsOfAll(a) == {"x"} && OWN_X.params == [];
    assert b[1..] == [CALL_X] && b[1..][1..] == [];
    assert LocalsOfAll(b[1..]) == {} && LocalsOfAll(b) == {} && CALLS_X.params == [];
    assert DeclOfAll(b[1..], "x") == None && DeclOfAll(b, "x") == Some(FUNCTION_X);
    var code, code' := [OWN_X, Around(OWN_X)], [CALLS_X, Around(CALLS_X)];
    assert UsesIn(Var("x"), code) == [Use("x", code)] && UsesIn(Num(2), code) == [];
    assert UsesInStmt(a[1], code) == [Use("x", code)] && UsesInStmt(a[0], code) == [];
    assert UsesInAll(a[1..], code) == [Use("x", code)];
    assert UsesIn(Var("x"), code') == [Use("x", code')] && UsesInArgs([], code') == [];
    assert UsesIn(Call(Var("x"), []), code') == [Use("x", code')];
    assert UsesInStmt(b[1], code') == [Use("x", code')];
    assert UsesInAll(b[1..], code') == [Use("x", code')];
    assert UsesInStmt(b[0], code') == UsesInAll([], [FUNCTION_X] + code') == [];
  }

  /** `function f() { var x = 1; function g() { var x = 2; return x; } }`: the `x` of `g` is its own, and nothing is
      reported. */
  lemma {:induction false} ShadowingAccepted()
    ensures StmtsErrors([FunDecl(Around(OWN_X))], TOP) == []
  {
    AroundHasX(OWN_X);
    BodiesOfG();
    var u := Use("x", [OWN_X, Around(OWN_X)]);
    ReportsExactly([FunDecl(Around(OWN_X))]);
    assert PlaceOf(u) == Cell(0);
    assert [u][1..] == [] && ReportedNames([u]) == [];
  }

  /** `function f() { var x = 1; function g() { function x() {} return x(); } }`: the `x` of `g` is a nested function,
      nothing is captured, and `x` is reported all the same. */
  lemma {:induction false} HidingReported()
    ensures StmtsErrors([FunDecl(Around(CALLS_X))], TOP) == ["x"]
    ensures UsesInAll([FunDecl(Around(CALLS_X))], []) == [Use("x", [CALLS_X, Around(CALLS_X)])]
    ensures !Captures(Use("x", [CALLS_X, Around(CALLS_X)]))
  {
    AroundHasX(CALLS_X);
    BodiesOfG();
    var u := Use("x", [CALLS_X, Around(CALLS_X)]);
    ReportsExactly([FunDecl(Around(CALLS_X))]);
    assert u.code[1] == Around(CALLS_X) && u.x in Locals(u.code[1]);
    assert PlaceOf(u).FunctionName?;
    assert [u][1..] == [] && ReportedNames([u]) == ["x"];
  }
}
