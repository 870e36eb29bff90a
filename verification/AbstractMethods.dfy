/** The bookkeeping of abstract methods down the class hierarchy of one file. */
module AbstractMethods {
  import opened Options

  type Name = string
  datatype Method = Method(name: Name, isAbstract: bool, isStatic: bool)
  datatype Class = Class(name: Name, base: Option<Name>, isAbstract: bool, methods: seq<Method>)

  /** `abstractMethods` of every class the type table knows. */
  type Types = map<Name, set<Name>>

  datatype Error =
    | BaseNotFound(base: Name)
    | AbstractInConcrete(name: Name)
    | NotImplemented(className: Name, missing: set<Name>)

  function Mangle(name: Name, className: Name): Name {
    if |name| > 0 && name[0] == '#' then "__private_" + className + "_" + name[1..] else name
  }

  // ---------------------------------------------------------------- what the visitor computes

  /** The member loop: an abstract method is added to the set, any other method removed from it. */
  function Scan(inherited: set<Name>, className: Name, methods: seq<Method>): set<Name> {
    if methods == [] then inherited
    else
      var m := methods[|methods|-1];
      var before := Scan(inherited, className, methods[..|methods|-1]);
      if m.isAbstract then before + {Mangle(m.name, className)} else before - {Mangle(m.name, className)}
  }

  function Inherited(types: Types, c: Class): set<Name>
    requires c.name in types
  {
    if c.base.Some? && c.base.value in types then types[c.base.value] else types[c.name]
  }

  function Visit(types: Types, c: Class): Types
    requires c.name in types
  {
    types[c.name := Scan(Inherited(types, c), c.name, c.methods)]
  }

  function AbstractErrors(c: Class, methods: seq<Method>): seq<Error> {
    if methods == [] then []
    else
      var m := methods[|methods|-1];
      AbstractErrors(c, methods[..|methods|-1]) +
      (if m.isAbstract && !c.isAbstract then [AbstractInConcrete(m.name)] else [])
  }

  function VisitErrors(types: Types, c: Class): seq<Error>
    requires c.name in types
  {
    var missing := Visit(types, c)[c.name];
    (if c.base.Some? && c.base.value !in types then [BaseNotFound(c.base.value)] else [])
    + AbstractErrors(c, c.methods)
    + (if !c.isAbstract && missing != {} then [NotImplemented(c.name, missing)] else [])
  }

  /** The hoisting pass defines every class of the file with an empty set. */
  function Hoisted(outer: Types, file: seq<Class>): Types {
    if file == [] then outer else Hoisted(outer, file[..|file|-1])[file[|file|-1].name := {}]
  }

  /** The type table after the first `k` classes of the file have been visited. */
  function After(outer: Types, file: seq<Class>, k: nat): (types: Types)
    requires k <= |file|
    ensures forall i :: 0 <= i < |file| ==> file[i].name in types
    decreases k
  {
    if k == 0 then HoistedHasAll(outer, file); Hoisted(outer, file)
    else Visit(After(outer, file, k - 1), file[k-1])
  }

  lemma {:induction false} HoistedHasAll(outer: Types, file: seq<Class>)
    ensures forall name :: name in Hoisted(outer, file) <==>
              name in outer || exists i :: 0 <= i < |file| && file[i].name == name
    ensures forall i :: 0 <= i < |file| ==> Hoisted(outer, file)[file[i].name] == {}
    ensures forall name :: name in outer && (forall i :: 0 <= i < |file| ==> file[i].name != name) ==>
              Hoisted(outer, file)[name] == outer[name]
    decreases |file|
  {
    if file != [] {
      HoistedHasAll(outer, file[..|file|-1]);
      assert forall i :: 0 <= i < |file| - 1 ==> file[i] == file[..|file|-1][i];
    }
  }

  class ClassVisitor {
    var types: Types
    var errors: seq<Error>

    constructor (outer: Types, file: seq<Class>)
      ensures types == Hoisted(outer, file) && errors == []
    {
      errors := [];
      var hoisted := outer;
      for i := 0 to |file|
        invariant hoisted == Hoisted(outer, file[..i])
      {
        assert file[..i+1][..i] == file[..i];
        hoisted := hoisted[file[i].name := {}];
      }
      assert file[..|file|] == file;
      types := hoisted;
    }

    method VisitClassDeclaration(c: Class)
      requires c.name in types
      modifies this
      ensures types == Visit(old(types), c)
      ensures errors == old(errors) + VisitErrors(old(types), c)
    {
      if c.base.Some? {
        if c.base.value !in types {
          errors := errors + [BaseNotFound(c.base.value)];
        } else {
          types := types[c.name := types[c.base.value]];
        }
      }
      ScanMembers(c);
      if !c.isAbstract && types[c.name] != {} {
        errors := errors + [NotImplemented(c.name, types[c.name])];
      }
    }

    method ScanMembers(c: Class)
      requires c.name in types
      modifies this
      ensures types == old(types)[c.name := Scan(old(types)[c.name], c.name, c.methods)]
      ensures errors == old(errors) + AbstractErrors(c, c.methods)
    {
      for i := 0 to |c.methods|
        invariant types == old(types)[c.name := Scan(old(types)[c.name], c.name, c.methods[..i])]
        invariant errors == old(errors) + AbstractErrors(c, c.methods[..i])
      {
        assert c.methods[..i+1][..i] == c.methods[..i];
        var m := c.methods[i];
        var name := Mangle(m.name, c.name);
        if m.isAbstract {
          if !c.isAbstract { errors := errors + [AbstractInConcrete(m.name)]; }
          types := types[c.name := types[c.name] + {name}];
        } else {
          types := types[c.name := types[c.name] - {name}];
        }
      }
      assert c.methods[..|c.methods|] == c.methods;
    }
  }

  // ---------------------------------------------------------------- what it is for

  /** The last declaration of `name` in the class. */
  function LastIn(className: Name, methods: seq<Method>, name: Name): Option<Method> {
    if methods == [] then None
    else if Mangle(methods[|methods|-1].name, className) == name then Some(methods[|methods|-1])
    else LastIn(className, methods[..|methods|-1], name)
  }

  /** The index of the class with this name, or the number of classes. */
  function Find(file: seq<Class>, name: Name): (i: nat)
    ensures i <= |file| && (i < |file| ==> file[i].name == name)
    ensures forall k :: 0 <= k < i ==> file[k].name != name
  {
    if file == [] || file[0].name == name then 0 else 1 + Find(file[1..], name)
  }

  /** The nearest class that declares `name`, going up from class `i` through classes declared earlier in the
      file and then imported ones, declares it abstract. */
  predicate NearestIsAbstract(outer: Types, file: seq<Class>, i: nat, name: Name)
    requires i < |file|
    decreases i
  {
    var c := file[i];
    var own := LastIn(c.name, c.methods, name);
    if own.Some? then own.value.isAbstract
    else if c.base.None? then false
    else
      var b := Find(file, c.base.value);
      if b == |file| then c.base.value in outer && name in outer[c.base.value]
      else b < i && NearestIsAbstract(outer, file, b, name)
  }

  ghost predicate DistinctClasses(file: seq<Class>) {
    forall i, j :: 0 <= i < j < |file| ==> file[i].name != file[j].name
  }

  lemma {:induction false} ScanIs(inherited: set<Name>, className: Name, methods: seq<Method>, name: Name)
    ensures var last := LastIn(className, methods, name);
            name in Scan(inherited, className, methods) <==>
            if last.Some? then last.value.isAbstract else name in inherited
    decreases |methods|
  {
    if methods != [] { ScanIs(inherited, className, methods[..|methods|-1], name); }
  }

  lemma {:induction false} VisitIs(outer: Types, file: seq<Class>, types: Types, i: nat, name: Name)
    requires i < |file| && file[i].name in types && name !in types[file[i].name]
    requires file[i].base.Some? ==>
               var base := file[i].base.value;
               var b := Find(file, base);
               if b < |file|
               then base in types && (name in types[base] <==> b < i && NearestIsAbstract(outer, file, b, name))
               else (base in types <==> base in outer) && (base in types ==> types[base] == outer[base])
    ensures name in Visit(types, file[i])[file[i].name] <==> NearestIsAbstract(outer, file, i, name)
  {
    ScanIs(Inherited(types, file[i]), file[i].name, file[i].methods, name);
  }

  lemma {:induction false} AfterIs(outer: Types, file: seq<Class>, k: nat, i: nat, name: Name)
    requires k <= |file| && i < |file| && DistinctClasses(file)
    ensures name in After(outer, file, k)[file[i].name] <==> i < k && NearestIsAbstract(outer, file, i, name)
    decreases k
  {
    if k == 0 {
      HoistedHasAll(outer, file);
    } else {
      AfterIs(outer, file, k - 1, i, name);
      if i < k - 1 {
        assert file[i].name != file[k-1].name;
      } else if i == k - 1 {
        if file[i].base.Some? {
          var b := Find(file, file[i].base.value);
          if b < |file| {
            AfterIs(outer, file, k - 1, b, name);
          } else {
            AfterOuter(outer, file, k - 1, file[i].base.value);
          }
        }
        VisitIs(outer, file, After(outer, file, k - 1), i, name);
      } else {
        assert file[k-1].name != file[i].name;
      }
    }
  }

  lemma {:induction false} AfterOuter(outer: Types, file: seq<Class>, k: nat, name: Name)
    requires k <= |file| && forall i :: 0 <= i < |file| ==> file[i].name != name
    ensures name in After(outer, file, k) <==> name in outer
    ensures name in outer ==> After(outer, file, k)[name] == outer[name]
    decreases k
  {
    HoistedHasAll(outer, file);
    if k > 0 { AfterOuter(outer, file, k - 1, name); }
  }

  /** A method is in a class's final set exactly when the nearest class declaring it declares it abstract. */
  lemma {:induction false} AbstractIffNearestIs(outer: Types, file: seq<Class>, i: nat, name: Name)
    requires i < |file| && DistinctClasses(file)
    ensures name in After(outer, file, |file|)[file[i].name] <==> NearestIsAbstract(outer, file, i, name)
  {
    AfterIs(outer, file, |file|, i, name);
  }

  /** A concrete class is reported exactly when some method's nearest declaration is abstract. */
  lemma {:induction false} ReportedIffUnimplemented(outer: Types, file: seq<Class>, i: nat)
    requires i < |file| && DistinctClasses(file)
    ensures (exists e :: e in VisitErrors(After(outer, file, i), file[i]) && e.NotImplemented?)
       <==> !file[i].isAbstract && exists name :: NearestIsAbstract(outer, file, i, name)
  {
    var types := After(outer, file, i);
    var missing := Visit(types, file[i])[file[i].name];
    forall name
      ensures name in missing <==> NearestIsAbstract(outer, file, i, name)
    {
      AfterIs(outer, file, i + 1, i, name);
    }
    NoOtherReport(file[i], file[i].methods);
    assert missing != {} <==> exists name :: NearestIsAbstract(outer, file, i, name) by {
      if missing != {} {
        var name :| name in missing;
        assert NearestIsAbstract(outer, file, i, name);
      }
    }
    var c, errors := file[i], VisitErrors(types, file[i]);
    var base := if c.base.Some? && c.base.value !in types then [BaseNotFound(c.base.value)] else [];
    if !c.isAbstract && missing != {} {
      assert errors == base + AbstractErrors(c, c.methods) + [NotImplemented(c.name, missing)];
      assert errors[|errors|-1] in errors;
      assert exists e :: e in errors && e.NotImplemented?;
      assert exists name :: NearestIsAbstract(outer, file, i, name);
    } else {
      assert errors == base + AbstractErrors(c, c.methods);
      assert forall e :: e in errors ==> !e.NotImplemented?;
      assert file[i].isAbstract || !exists name :: NearestIsAbstract(outer, file, i, name);
    }
  }

  lemma {:induction false} NoOtherReport(c: Class, methods: seq<Method>)
    ensures forall e :: e in AbstractErrors(c, methods) ==> e.AbstractInConcrete?
    decreases |methods|
  {
    if methods != [] { NoOtherReport(c, methods[..|methods|-1]); }
  }

  lemma {:induction false} AbstractMembersReported(c: Class, methods: seq<Method>, name: Name)
    ensures AbstractInConcrete(name) in AbstractErrors(c, methods) <==>
            !c.isAbstract && exists j :: 0 <= j < |methods| && methods[j].isAbstract && methods[j].name == name
    decreases |methods|
  {
    if methods != [] {
      var front := methods[..|methods|-1];
      AbstractMembersReported(c, front, name);
      assert forall j :: 0 <= j < |front| ==> front[j] == methods[j];
      assert methods[|methods|-1] == methods[|front|];
    }
  }

  lemma {:induction false} AfterKnows(outer: Types, file: seq<Class>, k: nat, name: Name)
    requires k <= |file|
    ensures name in After(outer, file, k) <==> name in outer || Find(file, name) < |file|
    decreases k
  {
    HoistedHasAll(outer, file);
    if k > 0 { AfterKnows(outer, file, k - 1, name); }
    assert Find(file, name) < |file| <==> exists i :: 0 <= i < |file| && file[i].name == name;
  }

  /** What is wrong with class `i`. */
  ghost predicate Wrong(outer: Types, file: seq<Class>, i: nat, e: Error)
    requires i < |file|
  {
    var c := file[i];
    match e
    case BaseNotFound(base) => c.base == Some(base) && base !in outer && Find(file, base) == |file|
    case AbstractInConcrete(name) =>
      !c.isAbstract && exists j :: 0 <= j < |c.methods| && c.methods[j].isAbstract && c.methods[j].name == name
    case NotImplemented(className, missing) =>
      && className == c.name && !c.isAbstract && missing != {}
      && forall name :: name in missing <==> NearestIsAbstract(outer, file, i, name)
  }

  /** Of each class exactly the errors it has are reported: a base no class of the file and no import declares, each
      abstract member of a concrete class, and the unimplemented methods, all in one. */
  lemma {:induction false} ReportsWhatIsWrong(outer: Types, file: seq<Class>, i: nat, e: Error)
    requires i < |file| && DistinctClasses(file)
    ensures e in VisitErrors(After(outer, file, i), file[i]) <==> Wrong(outer, file, i, e)
  {
    var c, types := file[i], After(outer, file, i);
    var missing := Visit(types, c)[c.name];
    NoOtherReport(c, c.methods);
    match e
    case BaseNotFound(base) => AfterKnows(outer, file, i, base);
    case AbstractInConcrete(name) => AbstractMembersReported(c, c.methods, name);
    case NotImplemented(_, reported) =>
      forall name
        ensures name in missing <==> NearestIsAbstract(outer, file, i, name)
      {
        AfterIs(outer, file, i + 1, i, name);
      }
      if Wrong(outer, file, i, e) { assert reported == missing; }
  }

  /** Private methods of one name in two classes are two methods. */
  lemma {:induction false} PrivateApart(name: Name, a: Name, b: Name)
    requires |name| > 0 && name[0] == '#' && a != b
    ensures Mangle(name, a) != Mangle(name, b)
  {
    var start := "__private_";
    assert Mangle(name, a)[|start|..][..|a|] == a;
    assert Mangle(name, b)[|start|..][..|b|] == b;
  }

  // ---------------------------------------------------------------- where the rule and the language part ways

  function Instance(methods: seq<Method>): seq<Method> {
    if methods == [] then []
    else Instance(methods[..|methods|-1]) + (if methods[|methods|-1].isStatic then [] else [methods[|methods|-1]])
  }

  /** The declaration of `name` in a class that counts: any member, or instance members only. */
  function Declared(c: Class, name: Name, instanceOnly: bool): Option<Method> {
    LastIn(c.name, if instanceOnly then Instance(c.methods) else c.methods, name)
  }

  function Below(n: nat): (s: set<nat>)
    ensures forall j: nat :: j in s <==> j < n
  {
    if n == 0 then {} else Below(n - 1) + {n - 1}
  }

  /** The nearest class up the hierarchy that declares `name` declares it abstract, wherever in the file the classes
      stand; the walk stops if the hierarchy is circular.  With `instanceOnly` it is what the language asks of the
      instances of class `i`. */
  predicate AbstractAnywhere(outer: Types, file: seq<Class>, i: nat, name: Name, instanceOnly: bool, seen: set<nat>)
    requires i < |file|
    decreases Below(|file|) - seen
  {
    var c := file[i];
    var own := Declared(c, name, instanceOnly);
    if i in seen then false
    else if own.Some? then own.value.isAbstract
    else if c.base.None? then false
    else
      var b := Find(file, c.base.value);
      if b == |file| then c.base.value in outer && name in outer[c.base.value]
      else
        assert i in Below(|file|) - seen;
        AbstractAnywhere(outer, file, b, name, instanceOnly, seen + {i})
  }

  /** Going up, a class whose base does not stand before it is met before any declaration of `name`. */
  predicate Late(file: seq<Class>, i: nat, name: Name)
    requires i < |file|
    decreases i
  {
    var c := file[i];
    if LastIn(c.name, c.methods, name).Some? || c.base.None? then false
    else
      var b := Find(file, c.base.value);
      b < |file| && (b >= i || Late(file, b, name))
  }

  /** The nearest declaration of `name` is a static method. */
  predicate NearestIsStatic(file: seq<Class>, i: nat, name: Name)
    requires i < |file|
    decreases i
  {
    var c := file[i];
    var own := LastIn(c.name, c.methods, name);
    if own.Some? then own.value.isStatic
    else if c.base.None? then false
    else
      var b := Find(file, c.base.value);
      b < i && NearestIsStatic(file, b, name)
  }

  ghost predicate NoAbstractStatics(file: seq<Class>) {
    forall i, j :: 0 <= i < |file| && 0 <= j < |file[i].methods| ==>
      !(file[i].methods[j].isAbstract && file[i].methods[j].isStatic)
  }

  lemma {:induction false} LastOfAppended(className: Name, front: seq<Method>, m: Method, name: Name)
    ensures LastIn(className, front + [m], name) ==
              if Mangle(m.name, className) == name then Some(m) else LastIn(className, front, name)
  {
    assert (front + [m])[..|front|] == front;
  }

  lemma {:induction false} LastInstance(className: Name, methods: seq<Method>, name: Name)
    ensures var last, instance := LastIn(className, methods, name), LastIn(className, Instance(methods), name);
            && (last.Some? ==> last.value in methods)
            && (last.None? ==> instance.None?)
            && (last.Some? && !last.value.isStatic ==> instance == last)
    decreases |methods|
  {
    if methods != [] {
      var front, m := methods[..|methods|-1], methods[|methods|-1];
      LastInstance(className, front, name);
      LastOfAppended(className, Instance(front), m, name);
      assert !m.isStatic ==> Instance(methods) == Instance(front) + [m];
      assert m.isStatic ==> Instance(methods) == Instance(front);
    }
  }

  lemma {:induction false} LateMissesFrom(outer: Types, file: seq<Class>, i: nat, name: Name, seen: set<nat>)
    requires i < |file| && forall j :: j in seen ==> j > i
    ensures var anywhere := AbstractAnywhere(outer, file, i, name, false, seen);
            && ((NearestIsAbstract(outer, file, i, name) <==> anywhere) <==> !(Late(file, i, name) && anywhere))
            && (Late(file, i, name) ==> !NearestIsAbstract(outer, file, i, name))
    decreases i
  {
    var c := file[i];
    if LastIn(c.name, c.methods, name).None? && c.base.Some? {
      var b := Find(file, c.base.value);
      if b < i { LateMissesFrom(outer, file, b, name, seen + {i}); }
    }
  }

  /** The set is what the hierarchy says, wherever its classes stand, if and only if no base that stands late hides an
      abstract declaration. */
  lemma {:induction false} RightUnlessLate(outer: Types, file: seq<Class>, i: nat, name: Name)
    requires i < |file| && DistinctClasses(file)
    ensures var inSet := name in After(outer, file, |file|)[file[i].name];
            var anywhere := AbstractAnywhere(outer, file, i, name, false, {});
            && ((inSet <==> anywhere) <==> !(Late(file, i, name) && anywhere))
            && (Late(file, i, name) ==> !inSet)
  {
    AbstractIffNearestIs(outer, file, i, name);
    LateMissesFrom(outer, file, i, name, {});
  }

  /** The nearest declaration is a static method, or a late base hides it. */
  predicate Missed(file: seq<Class>, i: nat, name: Name)
    requires i < |file|
  {
    NearestIsStatic(file, i, name) || Late(file, i, name)
  }

  lemma {:induction false} StaticOrLateMissesFrom(outer: Types, file: seq<Class>, i: nat, name: Name, seen: set<nat>)
    requires i < |file| && NoAbstractStatics(file) && forall j :: j in seen ==> j > i
    ensures NearestIsAbstract(outer, file, i, name)
       <==> AbstractAnywhere(outer, file, i, name, true, seen) && !Missed(file, i, name)
    decreases i
  {
    var c := file[i];
    LastInstance(c.name, c.methods, name);
    if LastIn(c.name, c.methods, name).None? && c.base.Some? {
      var b := Find(file, c.base.value);
      if b < i { StaticOrLateMissesFrom(outer, file, b, name, seen + {i}); }
    }
  }

  /** A method is in a class's final set if and only if the language asks its instances for an implementation and
      neither a static method nor a late base stands in the way. */
  lemma {:induction false} RightUnlessMissed(outer: Types, file: seq<Class>, i: nat, name: Name)
    requires i < |file| && DistinctClasses(file) && NoAbstractStatics(file)
    ensures name in After(outer, file, |file|)[file[i].name]
       <==> AbstractAnywhere(outer, file, i, name, true, {}) && !Missed(file, i, name)
  {
    AbstractIffNearestIs(outer, file, i, name);
    StaticOrLateMissesFrom(outer, file, i, name, {});
  }

  /** A concrete class is reported if and only if the language asks for some implementation that is not missed. */
  lemma {:induction false} ReportedIffAsked(outer: Types, file: seq<Class>, i: nat)
    requires i < |file| && DistinctClasses(file) && NoAbstractStatics(file)
    ensures (exists e :: e in VisitErrors(After(outer, file, i), file[i]) && e.NotImplemented?)
       <==> !file[i].isAbstract && exists name :: AskedAndSeen(outer, file, i, name)
  {
    ReportedIffUnimplemented(outer, file, i);
    SomeNameAlike(outer, file, i);
  }

  lemma {:induction false} SomeNameAlike(outer: Types, file: seq<Class>, i: nat)
    requires i < |file| && NoAbstractStatics(file)
    ensures (exists name :: NearestIsAbstract(outer, file, i, name)) <==>
            (exists name :: AskedAndSeen(outer, file, i, name))
  {
    if name :| NearestIsAbstract(outer, file, i, name) {
      StaticOrLateMissesFrom(outer, file, i, name, {});
      assert AskedAndSeen(outer, file, i, name);
    }
    if name :| AskedAndSeen(outer, file, i, name) {
      StaticOrLateMissesFrom(outer, file, i, name, {});
      assert NearestIsAbstract(outer, file, i, name);
    }
  }

  predicate AskedAndSeen(outer: Types, file: seq<Class>, i: nat, name: Name)
    requires i < |file|
  {
    AbstractAnywhere(outer, file, i, name, true, {}) && !Missed(file, i, name)
  }

  const A := Class("A", None, true, [Method("m", true, false)])
  const STATIC_B := Class("B", Some("A"), false, [Method("m", false, true)])

  /** `abstract class A { abstract m() }  class B extends A { static m() {} }`: B is accepted. */
  lemma {:induction false} StaticTakenForImplementation()
    ensures VisitErrors(After(map[], [A, STATIC_B], 1), STATIC_B) == []
    ensures AbstractAnywhere(map[], [A, STATIC_B], 1, "m", true, {}) && NearestIsStatic([A, STATIC_B], 1, "m")
  {
    var file := [A, STATIC_B];
    assert A.methods[..0] == [] && STATIC_B.methods[..0] == [];
    forall name
      ensures name !in After(map[], file, 2)["B"]
    {
      AfterIs(map[], file, 2, 1, name);
      assert Find(file, "A") == 0;
      assert LastIn("A", A.methods, name) == if name == "m" then Some(A.methods[0]) else None;
      assert LastIn("B", STATIC_B.methods, name) == if name == "m" then Some(STATIC_B.methods[0]) else None;
    }
    var types := After(map[], file, 1);
    assert After(map[], file, 2) == Visit(types, file[1]);
    assert Visit(types, STATIC_B)["B"] == {};
    assert file[0].name in types;
    assert AbstractErrors(STATIC_B, []) == [] && AbstractErrors(STATIC_B, STATIC_B.methods) == [];
    StaticBAsked();
  }

  lemma {:induction false} StaticBAsked()
    ensures AbstractAnywhere(map[], [A, STATIC_B], 1, "m", true, {}) && NearestIsStatic([A, STATIC_B], 1, "m")
  {
    var file := [A, STATIC_B];
    assert Find(file, "A") == 0;
    assert Instance([]) == [] && A.methods[..0] == [] && STATIC_B.methods[..0] == [];
    assert Instance(STATIC_B.methods) == [] && Instance(A.methods) == A.methods;
    assert Declared(A, "m", true) == Some(A.methods[0]) && Declared(STATIC_B, "m", true) == None;
    assert AbstractAnywhere(map[], file, 0, "m", true, {} + {1});
  }

  /** `class B extends A {}  abstract class A { abstract m() }`: at B the hoisted A has no methods yet, and the
      missing `m` is not reported. */
  lemma {:induction false} LateBaseForgotten()
    ensures var a := Class("A", None, true, [Method("m", true, false)]);
            var b := Class("B", Some("A"), false, []);
            var late, early := [b, a], [a, b];
            && VisitErrors(After(map[], late, 0), late[0]) == [] && Late(late, 0, "m")
            && AbstractAnywhere(map[], late, 0, "m", true, {})
            && VisitErrors(After(map[], early, 1), early[1]) == [NotImplemented("B", {"m"})]
  {
    var a := Class("A", None, true, [Method("m", true, false)]);
    var b := Class("B", Some("A"), false, []);
    var late, early := [b, a], [a, b];
    assert late[0] == b && early[0] == a && early[1] == b;
    HoistedHasAll(map[], late);
    HoistedHasAll(map[], early);
    assert late[1].name == "A" && early[0].name == "A";
    assert a.methods[..0] == [];
    assert Scan({}, "A", []) == {};
    assert Scan({}, "A", a.methods) == {"m"};
    var types := After(map[], early, 1);
    assert types == Visit(After(map[], early, 0), a);
    assert types["A"] == {"m"};
  }
}
