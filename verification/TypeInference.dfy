/** Inference of type arguments from call arguments, and substitution, which it inverts. */
module TypeInference {
  import opened Options

  type Name = string

  datatype Type =
    | Any
    | Named(name: Name)                                   // primitives, enums and other types without arguments
    | Param(name: Name)
    | ArrayOf(element: Type)
    | TupleOf(elements: seq<Type>)
    | FunctionOf(params: seq<Type>, result: Option<Type>)
    | ClassOf(name: Name, args: seq<Type>)
    | InterfaceOf(name: Name, args: seq<Type>)
    | UnionOf(members: seq<Type>)

  datatype TypeParameter = TypeParameter(name: Name, constraint: Option<Type>, default: Option<Type>)

  type Env = map<Name, Type>

  // ---------------------------------------------------------------- substitution

  /** `substitute`: arrays, functions, and the arguments of classes and interfaces; tuples and unions stay. */
  function Substitute(t: Type, env: Env): Type {
    match t
    case Param(n) => if n in env then env[n] else t
    case ArrayOf(e) => ArrayOf(Substitute(e, env))
    case FunctionOf(ps, r) =>
      FunctionOf(SubstituteAll(ps, env), if r.Some? then Some(Substitute(r.value, env)) else None)
    case ClassOf(n, args) => ClassOf(n, SubstituteAll(args, env))
    case InterfaceOf(n, args) => InterfaceOf(n, SubstituteAll(args, env))
    case Any | Named(_) | TupleOf(_) | UnionOf(_) => t
  }

  function SubstituteAll(ts: seq<Type>, env: Env): (r: seq<Type>)
    ensures |r| == |ts|
  {
    if ts == [] then [] else [Substitute(ts[0], env)] + SubstituteAll(ts[1..], env)
  }

  /** The parameters substitution can replace in a type. */
  function Replaceable(t: Type): set<Name> {
    match t
    case Param(n) => {n}
    case ArrayOf(e) => Replaceable(e)
    case FunctionOf(ps, r) => ReplaceableAll(ps) + (if r.Some? then Replaceable(r.value) else {})
    case ClassOf(_, args) => ReplaceableAll(args)
    case InterfaceOf(_, args) => ReplaceableAll(args)
    case Any | Named(_) | TupleOf(_) | UnionOf(_) => {}
  }

  function ReplaceableAll(ts: seq<Type>): set<Name> {
    if ts == [] then {} else Replaceable(ts[0]) + ReplaceableAll(ts[1..])
  }

  // ---------------------------------------------------------------- inference

  predicate IsTarget(tps: seq<TypeParameter>, n: Name) {
    exists i :: 0 <= i < |tps| && tps[i].name == n
  }

  /** `inferFromTypes`: matches a parameter type against an argument type; the first match of a name stays. */
  function Match(tps: seq<TypeParameter>, inferred: Env, p: Type, a: Type): Env
    decreases p
  {
    match p
    case Param(n) => if IsTarget(tps, n) && n !in inferred then inferred[n := a] else inferred
    case ArrayOf(e) =>
      if a.ArrayOf? then Match(tps, inferred, e, a.element)
      else if a.TupleOf? && a.elements != [] then Match(tps, inferred, e, a.elements[0])
      else inferred
    case FunctionOf(ps, r) =>
      if !a.FunctionOf? then inferred
      else
        var inferred1 := MatchAll(tps, inferred, ps, a.params);
        if r.Some? && a.result.Some? then Match(tps, inferred1, r.value, a.result.value) else inferred1
    case _ => inferred
  }

  /** Pairwise, up to the shorter of the two lists. */
  function MatchAll(tps: seq<TypeParameter>, inferred: Env, ps: seq<Type>, args: seq<Type>): Env
    decreases ps
  {
    if ps == [] || args == [] then inferred
    else MatchAll(tps, Match(tps, inferred, ps[0], args[0]), ps[1..], args[1..])
  }

  /** What a type parameter gets when nothing was inferred for it. */
  function Fallback(tp: TypeParameter): Type {
    if tp.default.Some? then tp.default.value
    else if tp.constraint.Some? then tp.constraint.value
    else Any
  }

  function Chosen(inferred: Env, tp: TypeParameter): Type {
    if tp.name in inferred then inferred[tp.name] else Fallback(tp)
  }

  function Infer(tps: seq<TypeParameter>, ps: seq<Type>, args: seq<Type>): (r: seq<Type>)
    ensures |r| == |tps|
  {
    var inferred := MatchAll(tps, map[], ps, args);
    seq(|tps|, i requires 0 <= i < |tps| => Chosen(inferred, tps[i]))
  }

  // ---------------------------------------------------------------- the loops of the source

  method FindTarget(tps: seq<TypeParameter>, n: Name) returns (target: bool)
    ensures target == IsTarget(tps, n)
  {
    for i := 0 to |tps|
      invariant forall j :: 0 <= j < i ==> tps[j].name != n
    {
      if tps[i].name == n { return true; }
    }
    return false;
  }

  method InferFromTypes(tps: seq<TypeParameter>, inferred: Env, p: Type, a: Type) returns (inferred': Env)
    ensures inferred' == Match(tps, inferred, p, a)
    decreases p
  {
    inferred' := inferred;
    match p
    case Param(n) =>
      var target := FindTarget(tps, n);
      if target && n !in inferred' { inferred' := inferred'[n := a]; }
    case ArrayOf(e) =>
      if a.ArrayOf? {
        inferred' := InferFromTypes(tps, inferred', e, a.element);
      } else if a.TupleOf? && a.elements != [] {
        inferred' := InferFromTypes(tps, inferred', e, a.elements[0]);
      }
    case FunctionOf(ps, r) =>
      if a.FunctionOf? {
        inferred' := InferFromLists(tps, inferred', ps, a.params);
        if r.Some? && a.result.Some? {
          inferred' := InferFromTypes(tps, inferred', r.value, a.result.value);
        }
      }
    case _ =>
  }

  method InferFromLists(tps: seq<TypeParameter>, inferred: Env, ps: seq<Type>, args: seq<Type>) returns (inferred': Env)
    ensures inferred' == MatchAll(tps, inferred, ps, args)
    decreases ps
  {
    inferred' := inferred;
    var count := if |ps| < |args| then |ps| else |args|;
    for i := 0 to count
      invariant MatchAll(tps, inferred', ps[i..], args[i..]) == MatchAll(tps, inferred, ps, args)
    {
      inferred' := InferFromTypes(tps, inferred', ps[i], args[i]);
    }
  }

  method InferTypeArguments(tps: seq<TypeParameter>, ps: seq<Type>, args: seq<Type>) returns (result: seq<Type>)
    ensures result == Infer(tps, ps, args)
  {
    var inferred := InferFromLists(tps, map[], ps, args);
    result := [];
    for i := 0 to |tps|
      invariant |result| == i && forall j :: 0 <= j < i ==> result[j] == Chosen(inferred, tps[j])
    {
      if tps[i].name in inferred {
        result := result + [inferred[tps[i].name]];
      } else if tps[i].default.Some? {
        result := result + [tps[i].default.value];
      } else if tps[i].constraint.Some? {
        result := result + [tps[i].constraint.value];
      } else {
        result := result + [Any];
      }
    }
  }

  /** The environment `visitCallExpression` builds from the type arguments. */
  function EnvOf(tps: seq<TypeParameter>, types: seq<Type>): Env
    requires |tps| == |types|
  {
    if tps == [] then map[]
    else EnvOf(tps[..|tps|-1], types[..|tps|-1])[tps[|tps|-1].name := types[|tps|-1]]
  }

  // ---------------------------------------------------------------- inference inverts substitution

  /** The type parameters matching can reach: through arrays and functions only. */
  function Reachable(t: Type): set<Name> {
    match t
    case Param(n) => {n}
    case ArrayOf(e) => Reachable(e)
    case FunctionOf(ps, r) => ReachableAll(ps) + (if r.Some? then Reachable(r.value) else {})
    case _ => {}
  }

  function ReachableAll(ts: seq<Type>): set<Name> {
    if ts == [] then {} else Reachable(ts[0]) + ReachableAll(ts[1..])
  }

  /** `inferred` has the value of `theta` on the targets among `names`, and nothing else. */
  ghost predicate Recovers(tps: seq<TypeParameter>, inferred: Env, theta: Env, names: set<Name>) {
    && (forall n :: n in inferred <==> n in names && IsTarget(tps, n))
    && (forall n :: n in inferred ==> n in theta && inferred[n] == theta[n])
  }

  ghost predicate Covers(tps: seq<TypeParameter>, theta: Env) {
    forall n :: n in theta <==> IsTarget(tps, n)
  }

  lemma {:induction false} MatchRecovers(tps: seq<TypeParameter>, inferred: Env, theta: Env, names: set<Name>, p: Type)
    requires Covers(tps, theta) && Recovers(tps, inferred, theta, names)
    ensures Recovers(tps, Match(tps, inferred, p, Substitute(p, theta)), theta, names + Reachable(p))
    decreases p
  {
    match p
    case Param(_) =>
    case ArrayOf(e) => MatchRecovers(tps, inferred, theta, names, e);
    case FunctionOf(ps, r) =>
      MatchAllRecovers(tps, inferred, theta, names, ps);
      var inferred1 := MatchAll(tps, inferred, ps, SubstituteAll(ps, theta));
      if r.Some? {
        MatchRecovers(tps, inferred1, theta, names + ReachableAll(ps), r.value);
        assert names + ReachableAll(ps) + Reachable(r.value) == names + Reachable(p);
      }
    case _ =>
  }

  lemma {:induction false} MatchAllRecovers(tps: seq<TypeParameter>, inferred: Env, theta: Env, names: set<Name>,
                                            ps: seq<Type>)
    requires Covers(tps, theta) && Recovers(tps, inferred, theta, names)
    ensures Recovers(tps, MatchAll(tps, inferred, ps, SubstituteAll(ps, theta)), theta, names + ReachableAll(ps))
    decreases ps
  {
    if ps == [] {
      assert names + {} == names;
    } else {
      MatchRecovers(tps, inferred, theta, names, ps[0]);
      var args := SubstituteAll(ps, theta);
      assert args[0] == Substitute(ps[0], theta) && args[1..] == SubstituteAll(ps[1..], theta);
      MatchAllRecovers(tps, Match(tps, inferred, ps[0], args[0]), theta, names + Reachable(ps[0]), ps[1..]);
      assert names + Reachable(ps[0]) + ReachableAll(ps[1..]) == names + ReachableAll(ps);
    }
  }

  /** If the arguments are the parameter types under `theta`, inference returns `theta` on every parameter it
      can reach and the fallback on every other. */
  lemma {:induction false} InferInverts(tps: seq<TypeParameter>, ps: seq<Type>, theta: Env)
    requires Covers(tps, theta)
    ensures var r := Infer(tps, ps, SubstituteAll(ps, theta));
            forall i :: 0 <= i < |tps| ==>
              r[i] == if tps[i].name in ReachableAll(ps) then theta[tps[i].name] else Fallback(tps[i])
  {
    MatchAllRecovers(tps, map[], theta, {}, ps);
    assert {} + ReachableAll(ps) == ReachableAll(ps);
  }

  // ---------------------------------------------------------------- whatever the arguments

  /** A parameter met, and the type it was met against. */
  datatype Pair = Pair(name: Name, against: Type)

  /** The pairs met in matching a type, in order; an array type is met by the first element of a tuple. */
  function Pairs(p: Type, a: Type): seq<Pair>
    decreases p
  {
    match p
    case Param(n) => [Pair(n, a)]
    case ArrayOf(e) =>
      match a {
        case ArrayOf(e') => Pairs(e, e')
        case TupleOf(es) => if es == [] then [] else Pairs(e, es[0])
        case _ => []
      }
    case FunctionOf(ps, r) =>
      match a {
        case FunctionOf(ps', r') =>
          PairsOfAll(ps, ps') + (if r.Some? && r'.Some? then Pairs(r.value, r'.value) else [])
        case _ => []
      }
    case _ => []
  }

  function PairsOfAll(ps: seq<Type>, args: seq<Type>): seq<Pair>
    decreases ps
  {
    if ps == [] || args == [] then [] else Pairs(ps[0], args[0]) + PairsOfAll(ps[1..], args[1..])
  }

  /** The type of the first pair with this name. */
  function FirstWith(pairs: seq<Pair>, n: Name): Option<Type> {
    if pairs == [] then None
    else if pairs[0].name == n then Some(pairs[0].against)
    else FirstWith(pairs[1..], n)
  }

  lemma {:induction false} FirstWithTwo(a: seq<Pair>, b: seq<Pair>, n: Name)
    ensures FirstWith(a + b, n) == if FirstWith(a, n).Some? then FirstWith(a, n) else FirstWith(b, n)
    decreases |a|
  {
    if a == [] {
      assert a + b == b;
    } else {
      FirstWithTwo(a[1..], b, n);
      assert (a + b)[1..] == a[1..] + b;
    }
  }

  function Bound(env: Env, n: Name): Option<Type> {
    if n in env then Some(env[n]) else None
  }

  lemma {:induction false} MatchTakesFirst(tps: seq<TypeParameter>, inferred: Env, p: Type, a: Type, n: Name)
    ensures Bound(Match(tps, inferred, p, a), n) ==
              if n in inferred then Some(inferred[n]) else if IsTarget(tps, n) then FirstWith(Pairs(p, a), n) else None
    decreases p
  {
    match p
    case Param(m) => assert [Pair(m, a)][1..] == [];
    case ArrayOf(e) =>
      if a.ArrayOf? {
        MatchTakesFirst(tps, inferred, e, a.element, n);
      } else if a.TupleOf? && a.elements != [] {
        MatchTakesFirst(tps, inferred, e, a.elements[0], n);
      }
    case FunctionOf(ps, r) =>
      if a.FunctionOf? {
        MatchAllTakesFirst(tps, inferred, ps, a.params, n);
        if r.Some? && a.result.Some? {
          MatchTakesFirst(tps, MatchAll(tps, inferred, ps, a.params), r.value, a.result.value, n);
          FirstWithTwo(PairsOfAll(ps, a.params), Pairs(r.value, a.result.value), n);
        } else {
          assert PairsOfAll(ps, a.params) + [] == PairsOfAll(ps, a.params);
        }
      }
    case _ =>
  }

  lemma {:induction false} MatchAllTakesFirst(tps: seq<TypeParameter>, inferred: Env, ps: seq<Type>, args: seq<Type>,
                                              n: Name)
    ensures Bound(MatchAll(tps, inferred, ps, args), n) ==
              if n in inferred then Some(inferred[n])
              else if IsTarget(tps, n) then FirstWith(PairsOfAll(ps, args), n) else None
    decreases ps
  {
    if ps != [] && args != [] {
      MatchTakesFirst(tps, inferred, ps[0], args[0], n);
      MatchAllTakesFirst(tps, Match(tps, inferred, ps[0], args[0]), ps[1..], args[1..], n);
      FirstWithTwo(Pairs(ps[0], args[0]), PairsOfAll(ps[1..], args[1..]), n);
    }
  }

  /** For arguments of any types, each type parameter gets the type its name is first met against; failing that its
      default, failing that its constraint, failing that `any`. */
  lemma {:induction false} InferTakesFirst(tps: seq<TypeParameter>, ps: seq<Type>, args: seq<Type>, i: nat)
    requires i < |tps|
    ensures var first := FirstWith(PairsOfAll(ps, args), tps[i].name);
            Infer(tps, ps, args)[i] ==
            if first.Some? then first.value
            else if tps[i].default.Some? then tps[i].default.value
            else if tps[i].constraint.Some? then tps[i].constraint.value
            else Any
  {
    assert IsTarget(tps, tps[i].name);
    MatchAllTakesFirst(tps, map[], ps, args, tps[i].name);
  }

  /** `f<T>(a: T, b: T)` called on (number, string): T is number. */
  lemma {:induction false} FirstArgumentWins()
    ensures var tps, ps := [TypeParameter("T", None, None)], [Param("T"), Param("T")];
            Infer(tps, ps, [Named("number"), Named("string")]) == [Named("number")]
  {
    InferTakesFirst([TypeParameter("T", None, None)], [Param("T"), Param("T")], [Named("number"), Named("string")], 0);
  }

  // ---------------------------------------------------------------- substituting back

  /** Two substitutions give the same type exactly when they agree on what they can replace in it. */
  lemma {:induction false} SubstituteAgreesIff(t: Type, s: Env, theta: Env)
    requires s.Keys == theta.Keys
    ensures Substitute(t, s) == Substitute(t, theta) <==> forall n :: n in Replaceable(t) && n in s ==> s[n] == theta[n]
    decreases t
  {
    match t
    case Param(_) =>
    case ArrayOf(e) => SubstituteAgreesIff(e, s, theta);
    case FunctionOf(ps, r) =>
      SubstituteAllAgreesIff(ps, s, theta);
      if r.Some? { SubstituteAgreesIff(r.value, s, theta); }
    case ClassOf(_, args) => SubstituteAllAgreesIff(args, s, theta);
    case InterfaceOf(_, args) => SubstituteAllAgreesIff(args, s, theta);
    case _ =>
  }

  lemma {:induction false} SubstituteAllAgreesIff(ts: seq<Type>, s: Env, theta: Env)
    requires s.Keys == theta.Keys
    ensures SubstituteAll(ts, s) == SubstituteAll(ts, theta)
       <==> forall n :: n in ReplaceableAll(ts) && n in s ==> s[n] == theta[n]
    decreases ts
  {
    if ts != [] {
      SubstituteAgreesIff(ts[0], s, theta);
      SubstituteAllAgreesIff(ts[1..], s, theta);
      var a, b := SubstituteAll(ts, s), SubstituteAll(ts, theta);
      assert a[0] == Substitute(ts[0], s) && a[1..] == SubstituteAll(ts[1..], s);
      assert b[0] == Substitute(ts[0], theta) && b[1..] == SubstituteAll(ts[1..], theta);
      assert a == b <==> a[0] == b[0] && a[1..] == b[1..] by {
        assert a == [a[0]] + a[1..] && b == [b[0]] + b[1..];
      }
    }
  }

  ghost predicate DistinctNames(tps: seq<TypeParameter>) {
    forall i, j :: 0 <= i < j < |tps| ==> tps[i].name != tps[j].name
  }

  lemma {:induction false} TargetsSplit(tps: seq<TypeParameter>, n: Name)
    requires tps != []
    ensures IsTarget(tps, n) <==> IsTarget(tps[..|tps|-1], n) || tps[|tps|-1].name == n
  {
    var front := tps[..|tps|-1];
    if IsTarget(front, n) {
      var i :| 0 <= i < |front| && front[i].name == n;
      assert tps[i].name == n;
    }
    if IsTarget(tps, n) {
      var i :| 0 <= i < |tps| && tps[i].name == n;
      assert i < |front| ==> front[i].name == n;
    }
  }

  lemma {:induction false} EnvOfKeys(tps: seq<TypeParameter>, types: seq<Type>, n: Name)
    requires |tps| == |types|
    ensures n in EnvOf(tps, types) <==> IsTarget(tps, n)
    decreases |tps|
  {
    if tps != [] {
      EnvOfKeys(tps[..|tps|-1], types[..|tps|-1], n);
      TargetsSplit(tps, n);
    }
  }

  lemma {:induction false} EnvOfAt(tps: seq<TypeParameter>, types: seq<Type>, i: nat)
    requires |tps| == |types| && DistinctNames(tps) && i < |tps|
    ensures tps[i].name in EnvOf(tps, types) && EnvOf(tps, types)[tps[i].name] == types[i]
    decreases |tps|
  {
    var last := |tps| - 1;
    if i < last {
      assert tps[..last][i] == tps[i] && types[..last][i] == types[i];
      EnvOfAt(tps[..last], types[..last], i);
    }
  }

  lemma {:induction false} EnvOfIs(tps: seq<TypeParameter>, types: seq<Type>)
    requires |tps| == |types| && DistinctNames(tps)
    ensures var env := EnvOf(tps, types);
            && (forall n :: n in env <==> IsTarget(tps, n))
            && (forall i :: 0 <= i < |tps| ==> tps[i].name in env && env[tps[i].name] == types[i])
  {
    forall n { EnvOfKeys(tps, types, n); }
    forall i | 0 <= i < |tps| { EnvOfAt(tps, types, i); }
  }

  /** The parameters that matter but are out of reach get by accident what they should. */
  ghost predicate FallbacksAgree(tps: seq<TypeParameter>, reached: set<Name>, used: set<Name>, theta: Env)
    requires Covers(tps, theta)
  {
    forall i :: 0 <= i < |tps| && tps[i].name in used && tps[i].name !in reached ==>
      tps[i].name in theta && Fallback(tps[i]) == theta[tps[i].name]
  }

  lemma {:induction false} InferredEnvAgreesIff(tps: seq<TypeParameter>, ps: seq<Type>, theta: Env, used: set<Name>)
    requires Covers(tps, theta) && DistinctNames(tps)
    ensures var env := EnvOf(tps, Infer(tps, ps, SubstituteAll(ps, theta)));
            && env.Keys == theta.Keys
            && ((forall n :: n in used && n in env ==> env[n] == theta[n])
                <==> FallbacksAgree(tps, ReachableAll(ps), used, theta))
  {
    var r := Infer(tps, ps, SubstituteAll(ps, theta));
    var env := EnvOf(tps, r);
    EnvOfIs(tps, r);
    InferInverts(tps, ps, theta);
    if FallbacksAgree(tps, ReachableAll(ps), used, theta) {
      forall n | n in used && n in env
        ensures env[n] == theta[n]
      {
        var i :| 0 <= i < |tps| && tps[i].name == n;
      }
    }
  }

  /** Substituting the inferred type arguments back into the parameter types reproduces the arguments exactly
      when every parameter that occurs only out of reach falls back to what it stood for. */
  lemma {:induction false} ArgumentsReproducedIff(tps: seq<TypeParameter>, ps: seq<Type>, theta: Env)
    requires Covers(tps, theta) && DistinctNames(tps)
    ensures SubstituteAll(ps, EnvOf(tps, Infer(tps, ps, SubstituteAll(ps, theta)))) == SubstituteAll(ps, theta)
       <==> FallbacksAgree(tps, ReachableAll(ps), ReplaceableAll(ps), theta)
  {
    InferredEnvAgreesIff(tps, ps, theta, ReplaceableAll(ps));
    SubstituteAllAgreesIff(ps, EnvOf(tps, Infer(tps, ps, SubstituteAll(ps, theta))), theta);
  }

  /** The type of the call is the result type under `theta` on the same condition for the result type. */
  lemma {:induction false} CallTypeIff(tps: seq<TypeParameter>, ps: seq<Type>, result: Type, theta: Env)
    requires Covers(tps, theta) && DistinctNames(tps)
    ensures Substitute(result, EnvOf(tps, Infer(tps, ps, SubstituteAll(ps, theta)))) == Substitute(result, theta)
       <==> FallbacksAgree(tps, ReachableAll(ps), Replaceable(result), theta)
  {
    InferredEnvAgreesIff(tps, ps, theta, Replaceable(result));
    SubstituteAgreesIff(result, EnvOf(tps, Infer(tps, ps, SubstituteAll(ps, theta))), theta);
  }

  /** `f<T>(x: Box<T>): T` called on a `Box<number>`: T is not inferred, and the call has type `any`. */
  lemma {:induction false} ClassArgumentsOutOfReach()
    ensures var tps, ps := [TypeParameter("T", None, None)], [ClassOf("Box", [Param("T")])];
            var args := [ClassOf("Box", [Named("number")])];
            && args == SubstituteAll(ps, map["T" := Named("number")])
            && Infer(tps, ps, args) == [Any]
  {
    var ps := [ClassOf("Box", [Param("T")])];
    assert ps[1..] == [] && [Param("T")][1..] == [];
    assert SubstituteAll([Param("T")], map["T" := Named("number")]) == [Named("number")];
    assert SubstituteAll(ps, map["T" := Named("number")]) == [ClassOf("Box", [Named("number")])];
  }
}
