/** The escape analysis of one function body: what the visitor does to its variable map and the flags. */
module EscapeAnalysis {
  import opened Options

  type Variable = string

  /** Identifies one `new` expression of the program. */
  type Site = nat

  datatype Expr =
    | New(site: Site, args: seq<Expr>)
    | Ident(x: Variable)
    | Literal
    | Assign(target: Variable, value: Expr)
    | Store(base: Variable, value: Expr)          // base.p = value, base[i] = value
    | Call(callee: Expr, args: seq<Expr>)
    | Load(from: Expr)                           // e.p
    | ListLiteral(elements: seq<Expr>)            // [..], { p: .. }
    | Binary(left: Expr, right: Expr)
    | Cond(test: Expr, whenTrue: Expr, whenFalse: Expr)

  datatype Stmt =
    | ExprStmt(e: Expr)
    | Decl(x: Variable, init: Option<Expr>)
    | Block(ss: seq<Stmt>)
    | If(test: Expr, thn: Stmt, els: Stmt)
    | While(test: Expr, body: Stmt)
    | For(start: Stmt, test: Expr, step: Expr, body: Stmt)
    | ForOf(x: Variable, list: Expr, body: Stmt)
    | Return(e: Expr)
    | Throw(e: Expr)
    | Break
    | Continue
    | Try(tryBlock: seq<Stmt>, handler: seq<Stmt>, finalizer: seq<Stmt>)

  // ---------------------------------------------------------------- what a visit does, step by step

  /** Where the objects in a value can come from, as far as the analysis looks. */
  datatype Source = FromSite(site: Site) | FromVariable(x: Variable) | Elsewhere

  function SourceOf(e: Expr): Source {
    match e
    case New(site, _) => FromSite(site)
    case Ident(x) => FromVariable(x)
    case _ => Elsewhere
  }

  /** The effects of the visitor, in the order it has them: a `new` clears its flag, a variable takes the
      objects of a value, a value's objects are marked. */
  datatype Event = Reset(site: Site) | Flow(x: Variable, src: Source) | Sink(src: Source)

  function Events(e: Expr): seq<Event> {
    match e
    case New(site, args) => [Reset(site)] + SinkEvents(args)
    case Ident(_) | Literal => []
    case Assign(x, v) => Events(v) + [Flow(x, SourceOf(v))]
    case Store(_, v) => Events(v) + [Sink(SourceOf(v))]
    case Call(callee, args) => Events(callee) + SinkEvents(args)
    case Load(b) => Events(b)
    case ListLiteral(es) => SinkEvents(es)
    case Binary(l, r) => Events(l) + Events(r)
    case Cond(c, t, f) => Events(c) + Events(t) + Events(f)
  }

  function SinkEvents(es: seq<Expr>): seq<Event> {
    if es == [] then []
    else Events(es[0]) + [Sink(SourceOf(es[0]))] + SinkEvents(es[1..])
  }

  function StmtEvents(s: Stmt): seq<Event> {
    match s
    case ExprStmt(e) => Events(e)
    case Decl(x, init) => if init.Some? then Events(init.value) + [Flow(x, SourceOf(init.value))] else []
    case Block(ss) => AllEvents(ss)
    case If(c, thn, els) => Events(c) + StmtEvents(thn) + StmtEvents(els)
    case While(c, body) => Events(c) + StmtEvents(body)
    case For(start, c, step, body) => StmtEvents(start) + Events(c) + Events(step) + StmtEvents(body)
    case ForOf(_, list, body) => Events(list) + StmtEvents(body)
    case Return(e) => Events(e) + [Sink(SourceOf(e))]
    case Throw(e) => Events(e) + [Sink(SourceOf(e))]
    case Break | Continue => []
    case Try(b, h, f) => AllEvents(b) + AllEvents(h) + AllEvents(f)
  }

  function AllEvents(ss: seq<Stmt>): seq<Event> {
    if ss == [] then [] else StmtEvents(ss[0]) + AllEvents(ss[1..])
  }

  // ---------------------------------------------------------------- the analysis state

  datatype Facts = Facts(variables: map<Variable, set<Site>>, escapes: set<Site>)

  function Potential(f: Facts, src: Source): set<Site> {
    match src
    case FromSite(site) => {site}
    case FromVariable(x) => if x in f.variables then f.variables[x] else {}
    case Elsewhere => {}
  }

  function Apply(f: Facts, ev: Event): Facts {
    match ev
    case Reset(site) => f.(escapes := f.escapes - {site})
    case Flow(x, src) => f.(variables := f.variables[x := Potential(f, src)])
    case Sink(src) => f.(escapes := f.escapes + Potential(f, src))
  }

  function ApplyAll(f: Facts, evs: seq<Event>): Facts
    decreases |evs|
  {
    if evs == [] then f else ApplyAll(Apply(f, evs[0]), evs[1..])
  }

  lemma {:induction false} ApplyTwo(f: Facts, a: seq<Event>, b: seq<Event>)
    ensures ApplyAll(f, a + b) == ApplyAll(ApplyAll(f, a), b)
    decreases |a|
  {
    if a == [] {
      assert a + b == b;
    } else {
      ApplyTwo(Apply(f, a[0]), a[1..], b);
      assert (a + b)[1..] == a[1..] + b;
    }
  }

  lemma {:induction false} ApplyThen(f: Facts, a: seq<Event>, ev: Event)
    ensures ApplyAll(f, a + [ev]) == Apply(ApplyAll(f, a), ev)
  {
    ApplyTwo(f, a, [ev]);
    assert [ev][1..] == [];
  }

  const NOTHING := Facts(map[], {})

  // ---------------------------------------------------------------- the visitor

  class EscapeVisitor {
    var variables: map<Variable, set<Site>>
    var escapes: set<Site>

    ghost function Now(): Facts
      reads this
    {
      Facts(variables, escapes)
    }

    constructor ()
      ensures Now() == NOTHING
    {
      variables, escapes := map[], {};
    }

    method GetPotentialObjects(e: Expr) returns (objects: set<Site>)
      ensures objects == Potential(Now(), SourceOf(e))
    {
      match e
      case New(site, _) => objects := {site};
      case Ident(x) => objects := if x in variables then variables[x] else {};
      case _ => objects := {};
    }

    method MarkAsEscaping(e: Expr)
      modifies this
      ensures Now() == Apply(old(Now()), Sink(SourceOf(e)))
    {
      var objects := GetPotentialObjects(e);
      ghost var all := objects;
      while objects != {}
        invariant variables == old(variables) && objects <= all
        invariant escapes == old(escapes) + (all - objects)
        decreases objects
      {
        var obj :| obj in objects;
        escapes := escapes + {obj};
        objects := objects - {obj};
      }
    }

    method AssignVariable(x: Variable, e: Expr)
      modifies this
      ensures Now() == Apply(old(Now()), Flow(x, SourceOf(e)))
    {
      var objects := GetPotentialObjects(e);
      variables := variables[x := objects];
    }

    method VisitArguments(args: seq<Expr>)
      modifies this
      ensures Now() == ApplyAll(old(Now()), SinkEvents(args))
    {
      for i := 0 to |args|
        invariant ApplyAll(Now(), SinkEvents(args[i..])) == ApplyAll(old(Now()), SinkEvents(args))
      {
        ghost var before := Now();
        Visit(args[i]);
        MarkAsEscaping(args[i]);
        ApplyThen(before, Events(args[i]), Sink(SourceOf(args[i])));
        ApplyTwo(before, Events(args[i]) + [Sink(SourceOf(args[i]))], SinkEvents(args[i..][1..]));
      }
    }

    method Visit(e: Expr)
      modifies this
      ensures Now() == ApplyAll(old(Now()), Events(e))
    {
      ghost var before := Now();
      match e
      case New(site, args) =>
        escapes := escapes - {site};
        assert [Reset(site)][1..] == [];
        ApplyTwo(before, [Reset(site)], SinkEvents(args));
        VisitArguments(args);
      case Ident(_) =>
      case Literal =>
      case Assign(x, v) =>
        Visit(v);
        AssignVariable(x, v);
        ApplyThen(before, Events(v), Flow(x, SourceOf(v)));
      case Store(_, v) =>
        Visit(v);
        MarkAsEscaping(v);
        ApplyThen(before, Events(v), Sink(SourceOf(v)));
      case Call(callee, args) =>
        Visit(callee);
        VisitArguments(args);
        ApplyTwo(before, Events(callee), SinkEvents(args));
      case Load(b) => Visit(b);
      case ListLiteral(es) => VisitArguments(es);
      case Binary(l, r) =>
        Visit(l);
        Visit(r);
        ApplyTwo(before, Events(l), Events(r));
      case Cond(c, t, f) =>
        Visit(c);
        Visit(t);
        Visit(f);
        ApplyTwo(before, Events(c), Events(t));
        ApplyTwo(before, Events(c) + Events(t), Events(f));
    }

    method VisitAll(ss: seq<Stmt>)
      modifies this
      ensures Now() == ApplyAll(old(Now()), AllEvents(ss))
    {
      for i := 0 to |ss|
        invariant ApplyAll(Now(), AllEvents(ss[i..])) == ApplyAll(old(Now()), AllEvents(ss))
      {
        ghost var before := Now();
        VisitStmt(ss[i]);
        ApplyTwo(before, StmtEvents(ss[i]), AllEvents(ss[i..][1..]));
      }
    }

    method VisitStmt(s: Stmt)
      modifies this
      ensures Now() == ApplyAll(old(Now()), StmtEvents(s))
    {
      ghost var before := Now();
      match s
      case ExprStmt(e) => Visit(e);
      case Decl(x, init) =>
        if init.Some? {
          Visit(init.value);
          AssignVariable(x, init.value);
          ApplyThen(before, Events(init.value), Flow(x, SourceOf(init.value)));
        }
      case Block(ss) => VisitAll(ss);
      case If(c, thn, els) =>
        Visit(c);
        VisitStmt(thn);
        VisitStmt(els);
        ApplyTwo(before, Events(c), StmtEvents(thn));
        ApplyTwo(before, Events(c) + StmtEvents(thn), StmtEvents(els));
      case While(c, body) =>
        Visit(c);
        VisitStmt(body);
        ApplyTwo(before, Events(c), StmtEvents(body));
      case For(start, c, step, body) =>
        VisitStmt(start);
        Visit(c);
        Visit(step);
        VisitStmt(body);
        ApplyTwo(before, StmtEvents(start), Events(c));
        ApplyTwo(before, StmtEvents(start) + Events(c), Events(step));
        ApplyTwo(before, StmtEvents(start) + Events(c) + Events(step), StmtEvents(body));
      case ForOf(_, list, body) =>
        Visit(list);
        VisitStmt(body);
        ApplyTwo(before, Events(list), StmtEvents(body));
      case Return(e) =>
        Visit(e);
        MarkAsEscaping(e);
        ApplyThen(before, Events(e), Sink(SourceOf(e)));
      case Throw(e) =>
        Visit(e);
        MarkAsEscaping(e);
        ApplyThen(before, Events(e), Sink(SourceOf(e)));
      case Break =>
      case Continue =>
      case Try(b, h, f) =>
        VisitAll(b);
        VisitAll(h);
        VisitAll(f);
        ApplyTwo(before, AllEvents(b), AllEvents(h));
        ApplyTwo(before, AllEvents(b) + AllEvents(h), AllEvents(f));
    }
  }

  /** The sites flagged after analysing a body. */
  function Flagged(body: seq<Stmt>): set<Site> {
    ApplyAll(NOTHING, AllEvents(body)).escapes
  }

  method PerformEscapeAnalysis(body: seq<Stmt>) returns (escapes: set<Site>)
    ensures escapes == Flagged(body)
  {
    var visitor := new EscapeVisitor();
    visitor.VisitAll(body);
    escapes := visitor.escapes;
  }
}
