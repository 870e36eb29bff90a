/** The capture check of the "use fast" subset: which identifiers it reports, and the checker that walks a
    program with a stack of enclosing frames. */
module FastCheck {
  import opened FastSyntax
  import opened Options

  /** Where the walk is: the locals of the function being walked (none at module level) and those of the
      functions around it, outermost first. */
  datatype Scope = Scope(own: Option<set<Ident>>, frames: seq<set<Ident>>)

  predicate InFrames(x: Ident, frames: seq<set<Ident>>) {
    exists i :: 0 <= i < |frames| && x in frames[i]
  }

  function IdentErrors(x: Ident, sc: Scope): seq<Ident> {
    if sc.own.Some? && sc.frames != [] && x !in sc.own.value && InFrames(x, sc.frames) then [x] else []
  }

  function Inside(sc: Scope, f: FunDef): Scope {
    Scope(Some(Locals(f)), if sc.own.Some? then sc.frames + [sc.own.value] else sc.frames)
  }

  /** The identifiers reported as captured, in walking order. */
  function ExprErrors(e: Expr, sc: Scope): seq<Ident> {
    match e
    case Num(_) => []
    case Var(x) => IdentErrors(x, sc)
    case Bin(_, l, r) => ExprErrors(l, sc) + ExprErrors(r, sc)
    case Cond(c, t, f) => ExprErrors(c, sc) + ExprErrors(t, sc) + ExprErrors(f, sc)
    case Assign(x, v) => IdentErrors(x, sc) + ExprErrors(v, sc)
    case Call(callee, args) => ExprErrors(callee, sc) + ArgErrors(args, sc)
    case Fun(f) => FunErrors(f, sc)
  }

  function ArgErrors(args: seq<Expr>, sc: Scope): seq<Ident> {
    if args == [] then [] else ExprErrors(args[0], sc) + ArgErrors(args[1..], sc)
  }

  function StmtErrors(s: Stmt, sc: Scope): seq<Ident> {
    match s
    case ExprStmt(e) => ExprErrors(e, sc)
    case VarDecl(_, init) => if init.Some? then ExprErrors(init.value, sc) else []
    case Block(ss) => StmtsErrors(ss, sc)
    case If(c, thn, els) => ExprErrors(c, sc) + StmtErrors(thn, sc) + StmtErrors(els, sc)
    case While(c, body) => ExprErrors(c, sc) + StmtErrors(body, sc)
    case For(start, c, step, body) =>
      StmtErrors(start, sc) + ExprErrors(c, sc) + ExprErrors(step, sc) + StmtErrors(body, sc)
    case Return(e) => ExprErrors(e, sc)
    case Throw(e) => ExprErrors(e, sc)
    case Break | Continue => []
    case Try(b, h, f) => StmtsErrors(b, sc) + StmtsErrors(h, sc) + StmtsErrors(f, sc)
    case FunDecl(f) => FunErrors(f, sc)
  }

  function StmtsErrors(ss: seq<Stmt>, sc: Scope): seq<Ident> {
    if ss == [] then [] else StmtErrors(ss[0], sc) + StmtsErrors(ss[1..], sc)
  }

  function FunErrors(f: FunDef, sc: Scope): seq<Ident> {
    StmtsErrors(f.body, Inside(sc, f))
  }

  const TOP := Scope(None, [])

  // ---------------------------------------------------------------- the walk

  class FastChecker {
    var fnLocalsStack: seq<set<Ident>>
    var currentOwnLocals: Option<set<Ident>>
    var errors: seq<Ident>

    ghost function Here(): Scope
      reads this
    {
      Scope(currentOwnLocals, fnLocalsStack)
    }

    constructor ()
      ensures Here() == TOP && errors == []
    {
      fnLocalsStack, currentOwnLocals, errors := [], None, [];
    }

    method CollectLocals(s: Stmt, out: set<Ident>) returns (out': set<Ident>)
      ensures out' == out + LocalsOf(s)
    {
      out' := out;
      match s
      case VarDecl(x, _) => out' := out' + {x};
      case Block(ss) => out' := CollectAll(ss, out');
      case If(_, thn, els) =>
        out' := CollectLocals(thn, out');
        out' := CollectLocals(els, out');
      case While(_, body) => out' := CollectLocals(body, out');
      case For(start, _, _, body) =>
        out' := CollectLocals(start, out');
        out' := CollectLocals(body, out');
      case Try(b, h, f) =>
        out' := CollectAll(b, out');
        out' := CollectAll(h, out');
        out' := CollectAll(f, out');
      case _ =>
    }

    method CollectAll(ss: seq<Stmt>, out: set<Ident>) returns (out': set<Ident>)
      ensures out' == out + LocalsOfAll(ss)
    {
      out' := out;
      for i := 0 to |ss|
        invariant out' + LocalsOfAll(ss[i..]) == out + LocalsOfAll(ss)
      {
        out' := CollectLocals(ss[i], out');
      }
    }

    method CapturesEnclosingLocal(name: Ident, ownLocals: set<Ident>) returns (captures: bool)
      ensures captures <==> name !in ownLocals && InFrames(name, fnLocalsStack)
    {
      if name in ownLocals { return false; }
      for i := 0 to |fnLocalsStack|
        invariant forall j :: 0 <= j < i ==> name !in fnLocalsStack[j]
      {
        if name in fnLocalsStack[i] { return true; }
      }
      return false;
    }

    method WalkIdentifier(x: Ident)
      modifies this
      ensures Here() == old(Here()) && errors == old(errors) + IdentErrors(x, old(Here()))
    {
      if currentOwnLocals.Some? && fnLocalsStack != [] {
        var captures := CapturesEnclosingLocal(x, currentOwnLocals.value);
        if captures { errors := errors + [x]; }
      }
    }

    /** Pushes the walked function's locals as an enclosing frame, walks the nested body, and restores both. */
    method WalkFunctionBody(f: FunDef)
      modifies this
      ensures Here() == old(Here()) && errors == old(errors) + FunErrors(f, old(Here()))
    {
      var locals := {};
      for i := 0 to |f.params|
        invariant locals == set j | 0 <= j < i :: f.params[j]
      {
        locals := locals + {f.params[i]};
      }
      locals := CollectAll(f.body, locals);
      var saved := currentOwnLocals;
      if saved.Some? {
        fnLocalsStack := fnLocalsStack + [saved.value];
        currentOwnLocals := Some(locals);
        WalkStmts(f.body);
        currentOwnLocals := saved;
        fnLocalsStack := fnLocalsStack[..|fnLocalsStack|-1];
      } else {
        currentOwnLocals := Some(locals);
        WalkStmts(f.body);
        currentOwnLocals := None;
      }
    }

    method Walk(e: Expr)
      modifies this
      ensures Here() == old(Here()) && errors == old(errors) + ExprErrors(e, old(Here()))
      decreases e, 1
    {
      match e
      case Num(_) =>
      case Var(x) => WalkIdentifier(x);
      case Bin(_, l, r) => WalkTwo(l, r, e);
      case Cond(c, t, f) => WalkTwo(c, t, e); Walk(f);
      case Assign(x, v) => WalkIdentifier(x); Walk(v);
      case Call(callee, args) => Walk(callee); WalkArgs(args);
      case Fun(f) => WalkFunctionBody(f);
    }

    /** The first two operands of `e`. */
    method WalkTwo(l: Expr, r: Expr, ghost e: Expr)
      requires l < e && r < e
      modifies this
      ensures Here() == old(Here())
      ensures errors == old(errors) + (ExprErrors(l, old(Here())) + ExprErrors(r, old(Here())))
      decreases e, 0
    {
      Walk(l);
      Walk(r);
    }

    method WalkArgs(args: seq<Expr>)
      modifies this
      ensures Here() == old(Here()) && errors == old(errors) + ArgErrors(args, old(Here()))
    {
      for i := 0 to |args|
        invariant Here() == old(Here())
        invariant errors + ArgErrors(args[i..], Here()) == old(errors) + ArgErrors(args, Here())
      {
        Walk(args[i]);
      }
    }

    method WalkStmts(ss: seq<Stmt>)
      modifies this
      ensures Here() == old(Here()) && errors == old(errors) + StmtsErrors(ss, old(Here()))
    {
      for i := 0 to |ss|
        invariant Here() == old(Here())
        invariant errors + StmtsErrors(ss[i..], Here()) == old(errors) + StmtsErrors(ss, Here())
      {
        WalkStmt(ss[i]);
      }
    }

    method WalkStmt(s: Stmt)
      modifies this
      ensures Here() == old(Here()) && errors == old(errors) + StmtErrors(s, old(Here()))
    {
      match s
      case ExprStmt(e) => Walk(e);
      case VarDecl(_, init) => if init.Some? { Walk(init.value); }
      case Block(ss) => WalkStmts(ss);
      case If(c, thn, els) => Walk(c); WalkStmt(thn); WalkStmt(els);
      case While(c, body) => Walk(c); WalkStmt(body);
      case For(start, c, step, body) => WalkStmt(start); Walk(c); Walk(step); WalkStmt(body);
      case Return(e) => Walk(e);
      case Throw(e) => Walk(e);
      case Break =>
      case Continue =>
      case Try(b, h, f) => WalkStmts(b); WalkStmts(h); WalkStmts(f);
      case FunDecl(f) => WalkFunctionBody(f);
    }
  }

  /** `performFastCheck` on a program: what the walk of its statements reports. */
  method PerformFastCheck(program: seq<Stmt>) returns (errors: seq<Ident>)
    ensures errors == StmtsErrors(program, TOP)
  {
    var checker := new FastChecker();
    checker.WalkStmts(program);
    errors := checker.errors;
  }
}
