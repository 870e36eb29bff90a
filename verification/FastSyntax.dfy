/** The part of the language a "use fast" file may contain, as far as names and functions go. */
module FastSyntax {
  import opened Options

  type Ident = string

  datatype BinOp = Add | Sub | Mul | Less

  datatype Expr =
    | Num(n: int)
    | Var(x: Ident)
    | Bin(op: BinOp, left: Expr, right: Expr)
    | Cond(test: Expr, whenTrue: Expr, whenFalse: Expr)
    | Assign(target: Ident, value: Expr)
    | Call(callee: Expr, args: seq<Expr>)
    | Fun(f: FunDef)

  datatype Stmt =
    | ExprStmt(e: Expr)
    | VarDecl(x: Ident, init: Option<Expr>)
    | Block(ss: seq<Stmt>)
    | If(test: Expr, thn: Stmt, els: Stmt)
    | While(test: Expr, body: Stmt)
    | For(start: Stmt, test: Expr, step: Expr, body: Stmt)
    | Return(result: Expr)
    | Throw(thrown: Expr)
    | Break
    | Continue
    | Try(tryBlock: seq<Stmt>, handler: seq<Stmt>, finalizer: seq<Stmt>)
    | FunDecl(f: FunDef)

  /** A function declaration, function expression or arrow; an expression body is a single return. */
  datatype FunDef = FunDef(name: Ident, params: seq<Ident>, body: seq<Stmt>)

  // ---------------------------------------------------------------- names a function owns

  /** `collectLocals`: the variables a statement declares, nested functions excluded. */
  function LocalsOf(s: Stmt): set<Ident> {
    match s
    case VarDecl(x, _) => {x}
    case Block(ss) => LocalsOfAll(ss)
    case If(_, thn, els) => LocalsOf(thn) + LocalsOf(els)
    case While(_, body) => LocalsOf(body)
    case For(start, _, _, body) => LocalsOf(start) + LocalsOf(body)
    case Try(b, h, f) => LocalsOfAll(b) + LocalsOfAll(h) + LocalsOfAll(f)
    case ExprStmt(_) | Return(_) | Throw(_) | Break | Continue | FunDecl(_) => {}
  }

  function LocalsOfAll(ss: seq<Stmt>): set<Ident> {
    if ss == [] then {} else LocalsOf(ss[0]) + LocalsOfAll(ss[1..])
  }

  /** The own locals of a function: its parameters and the variables of its body. */
  function Locals(f: FunDef): set<Ident> {
    (set i | 0 <= i < |f.params| :: f.params[i]) + LocalsOfAll(f.body)
  }

  /** The function a statement declares under `x`, nested blocks included; a later one wins. */
  function DeclOf(s: Stmt, x: Ident): Option<FunDef> {
    match s
    case FunDecl(f) => if f.name == x then Some(f) else None
    case Block(ss) => DeclOfAll(ss, x)
    case If(_, thn, els) => Later(DeclOf(thn, x), DeclOf(els, x))
    case While(_, body) => DeclOf(body, x)
    case For(start, _, _, body) => Later(DeclOf(start, x), DeclOf(body, x))
    case Try(b, h, f) => Later(Later(DeclOfAll(b, x), DeclOfAll(h, x)), DeclOfAll(f, x))
    case ExprStmt(_) | VarDecl(_, _) | Return(_) | Throw(_) | Break | Continue => None
  }

  function DeclOfAll(ss: seq<Stmt>, x: Ident): Option<FunDef> {
    if ss == [] then None else Later(DeclOf(ss[0], x), DeclOfAll(ss[1..], x))
  }

  function Later(a: Option<FunDef>, b: Option<FunDef>): Option<FunDef> {
    if b.Some? then b else a
  }
}
