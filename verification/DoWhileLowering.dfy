/** Lowering `do S while (t)` to `{ S; while (t) S }` in the AST dump, against the completions of ECMA-262
    sections 14.7.2 and 14.7.3. */
module DoWhileLowering {
  import opened Options

  type Label = string

  /** `Action` and `Test` stand for any statements and conditions without loops or jumps; the world says what
      they do. */
  datatype Stmt =
    | Action(id: nat)
    | Block(ss: seq<Stmt>)
    | If(test: nat, thn: Stmt, els: Stmt)
    | While(test: nat, body: Stmt)
    | DoWhile(body: Stmt, test: nat)
    | Break(target: Option<Label>)
    | Continue(target: Option<Label>)
    | Labeled(name: Label, stmt: Stmt)

  datatype Completion =
    | Normal
    | Breaks(target: Option<Label>)
    | Continues(target: Option<Label>)
    | Returns(value: int)
    | Throws(value: int)
    | OutOfFuel

  datatype Outcome = Proceeds | LeavesReturning(value: int) | LeavesThrowing(value: int)

  /** A test may change the state, and has no verdict when it throws. */
  datatype World<!S> = World(act: (nat, S) -> (Outcome, S), test: (nat, S) -> (Option<bool>, S))

  function Outward(o: Outcome): Completion {
    match o
    case Proceeds => Normal
    case LeavesReturning(v) => Returns(v)
    case LeavesThrowing(v) => Throws(v)
  }

  // ---------------------------------------------------------------- the transformation

  function Lower(s: Stmt): Stmt {
    match s
    case DoWhile(body, t) => Block([Lower(body), While(t, Lower(body))])
    case Block(ss) => Block(LowerAll(ss))
    case If(t, thn, els) => If(t, Lower(thn), Lower(els))
    case While(t, body) => While(t, Lower(body))
    case Labeled(l, body) => Labeled(l, Lower(body))
    case Action(_) | Break(_) | Continue(_) => s
  }

  function LowerAll(ss: seq<Stmt>): seq<Stmt> {
    if ss == [] then [] else [Lower(ss[0])] + LowerAll(ss[1..])
  }

  /** Nowhere in `s` is there a do-while loop. */
  predicate NoDoWhile(s: Stmt) {
    match s
    case DoWhile(_, _) => false
    case Block(ss) => NoDoWhileIn(ss)
    case If(_, thn, els) => NoDoWhile(thn) && NoDoWhile(els)
    case While(_, body) => NoDoWhile(body)
    case Labeled(_, body) => NoDoWhile(body)
    case Action(_) | Break(_) | Continue(_) => true
  }

  predicate NoDoWhileIn(ss: seq<Stmt>) {
    ss == [] || (NoDoWhile(ss[0]) && NoDoWhileIn(ss[1..]))
  }

  /** Lowering leaves no do-while loop at any depth, and changes nothing else: what has none stays as it is. */
  lemma {:induction false} LowersThroughout(s: Stmt)
    ensures NoDoWhile(Lower(s))
    ensures Lower(s) == s <==> NoDoWhile(s)
  {
    match s
    case DoWhile(body, t) =>
      LowersThroughout(body);
      var ss := [Lower(body), While(t, Lower(body))];
      assert ss[1..] == [ss[1]] && ss[1..][1..] == [];
      assert NoDoWhile(ss[1]) && NoDoWhileIn(ss[1..]);
    case Block(ss) => LowersAllThroughout(ss);
    case If(_, thn, els) => LowersThroughout(thn); LowersThroughout(els);
    case While(_, body) => LowersThroughout(body);
    case Labeled(_, body) => LowersThroughout(body);
    case Action(_) | Break(_) | Continue(_) =>
  }

  lemma {:induction false} LowersAllThroughout(ss: seq<Stmt>)
    ensures NoDoWhileIn(LowerAll(ss))
    ensures LowerAll(ss) == ss <==> NoDoWhileIn(ss)
  {
    if ss != [] {
      LowersThroughout(ss[0]);
      LowersAllThroughout(ss[1..]);
      var lowered := LowerAll(ss);
      assert lowered[0] == Lower(ss[0]) && lowered[1..] == LowerAll(ss[1..]);
      assert ss == [ss[0]] + ss[1..];
    }
  }

  // ---------------------------------------------------------------- evaluation

  /** Whether a completion of the body lets the loop with these labels go on. */
  predicate LoopContinues(c: Completion, labels: set<Label>) {
    c.Normal? || (c.Continues? && (c.target.None? || c.target.value in labels))
  }

  /** What a loop makes of a completion that ends it. */
  function LoopResult(c: Completion): Completion {
    if c == Breaks(None) then Normal else c
  }

  /** `labels` are the labels directly on `s`; fuel bounds the iterations. */
  function Exec<S>(w: World<S>, s: Stmt, labels: set<Label>, st: S, fuel: nat): (Completion, S)
    decreases fuel, s, 1
  {
    match s
    case Action(id) => var (o, st1) := w.act(id, st); (Outward(o), st1)
    case Block(ss) => ExecAll(w, ss, st, fuel)
    case If(t, thn, els) =>
      var (b, st1) := w.test(t, st);
      if b.None? then (Throws(0), st1) else Exec(w, if b.value then thn else els, {}, st1, fuel)
    case While(_, _) => Again(w, s, labels, st, fuel)
    case DoWhile(body, _) =>
      var (c, st1) := Exec(w, body, {}, st, fuel);
      if !LoopContinues(c, labels) then (LoopResult(c), st1) else Again(w, s, labels, st1, fuel)
    case Break(l) => (Breaks(l), st)
    case Continue(l) => (Continues(l), st)
    case Labeled(l, body) =>
      var (c, st1) := Exec(w, body, labels + {l}, st, fuel);
      (if c == Breaks(Some(l)) then Normal else c, st1)
  }

  function ExecAll<S>(w: World<S>, ss: seq<Stmt>, st: S, fuel: nat): (Completion, S)
    decreases fuel, ss, 2
  {
    if ss == [] then (Normal, st)
    else
      var (c, st1) := Exec(w, ss[0], {}, st, fuel);
      if !c.Normal? then (c, st1) else ExecAll(w, ss[1..], st1, fuel)
  }

  /** The test of a loop, and if it holds one more pass. */
  function Again<S>(w: World<S>, s: Stmt, labels: set<Label>, st: S, fuel: nat): (Completion, S)
    requires s.While? || s.DoWhile?
    decreases fuel, s, 0
  {
    var (b, st1) := w.test(s.test, st);
    if b.None? then (Throws(0), st1)
    else if !b.value then (Normal, st1)
    else if fuel == 0 then (OutOfFuel, st1)
    else
      var (c, st2) := Exec(w, s.body, {}, st1, fuel - 1);
      if !LoopContinues(c, labels) then (LoopResult(c), st2) else Again(w, s, labels, st2, fuel - 1)
  }

  // ---------------------------------------------------------------- how a statement may complete

  /** What is left of the completions of a body once its loop has dealt with them. */
  function Leaving(cs: set<Completion>, labels: set<Label>): set<Completion> {
    set c | c in cs && !LoopContinues(c, labels) :: LoopResult(c)
  }

  /** The ways `s`, labelled `labels`, may complete normally or with a jump, every test going either way. */
  function MayComplete(s: Stmt, labels: set<Label>): set<Completion> {
    match s
    case Action(_) => {Normal}
    case Block(ss) => MayCompleteAll(ss)
    case If(_, thn, els) => MayComplete(thn, {}) + MayComplete(els, {})
    case While(_, body) => {Normal} + Leaving(MayComplete(body, {}), labels)
    case DoWhile(body, _) =>
      (if exists c :: c in MayComplete(body, {}) && LoopContinues(c, labels) then {Normal} else {})
      + Leaving(MayComplete(body, {}), labels)
    case Break(l) => {Breaks(l)}
    case Continue(l) => {Continues(l)}
    case Labeled(l, body) =>
      set c | c in MayComplete(body, labels + {l}) :: if c == Breaks(Some(l)) then Normal else c
  }

  function MayCompleteAll(ss: seq<Stmt>): set<Completion> {
    if ss == [] then {Normal}
    else if Normal in MayComplete(ss[0], {}) then (MayComplete(ss[0], {}) - {Normal}) + MayCompleteAll(ss[1..])
    else MayComplete(ss[0], {})
  }

  predicate Local(c: Completion) {
    c.Normal? || c.Breaks? || c.Continues?
  }

  /** Nothing else happens in any run. */
  lemma {:induction false} MayCompleteSound<S>(w: World<S>, s: Stmt, labels: set<Label>, st: S, fuel: nat)
    ensures var c := Exec(w, s, labels, st, fuel).0; Local(c) ==> c in MayComplete(s, labels)
    decreases fuel, s, 1
  {
    match s
    case Action(_) =>
    case Block(ss) => MayCompleteAllSound(w, ss, st, fuel);
    case If(t, thn, els) =>
      var (b, st1) := w.test(t, st);
      if b.Some? { MayCompleteSound(w, if b.value then thn else els, {}, st1, fuel); }
    case While(_, _) => AgainSound(w, s, labels, st, fuel);
    case DoWhile(body, _) =>
      MayCompleteSound(w, body, {}, st, fuel);
      var (c, st1) := Exec(w, body, {}, st, fuel);
      AgainSound(w, s, labels, st1, fuel);
      assert !LoopContinues(c, labels) && Local(c) ==> LoopResult(c) in Leaving(MayComplete(body, {}), labels);
    case Break(_) =>
    case Continue(_) =>
    case Labeled(l, body) => MayCompleteSound(w, body, labels + {l}, st, fuel);
  }

  lemma {:induction false} MayCompleteAllSound<S>(w: World<S>, ss: seq<Stmt>, st: S, fuel: nat)
    ensures var c := ExecAll(w, ss, st, fuel).0; Local(c) ==> c in MayCompleteAll(ss)
    decreases fuel, ss, 2
  {
    if ss != [] {
      MayCompleteSound(w, ss[0], {}, st, fuel);
      MayCompleteAllSound(w, ss[1..], Exec(w, ss[0], {}, st, fuel).1, fuel);
    }
  }

  lemma {:induction false} AgainSound<S>(w: World<S>, s: Stmt, labels: set<Label>, st: S, fuel: nat)
    requires s.While? || s.DoWhile?
    ensures var c := Again(w, s, labels, st, fuel).0;
            Local(c) ==> c.Normal? || c in Leaving(MayComplete(s.body, {}), labels)
    decreases fuel, s, 0
  {
    var (b, st1) := w.test(s.test, st);
    if b == Some(true) && fuel > 0 {
      MayCompleteSound(w, s.body, {}, st1, fuel - 1);
      var (c, st2) := Exec(w, s.body, {}, st1, fuel - 1);
      if LoopContinues(c, labels) {
        AgainSound(w, s, labels, st2, fuel - 1);
      } else {
        assert Local(c) ==> LoopResult(c) in Leaving(MayComplete(s.body, {}), labels);
      }
    }
  }

  // ---------------------------------------------------------------- every such way is taken

  /** The verdicts of the tests to come. */
  type Script = seq<bool>

  const SCRIPTED: World<Script> := World(
    (id, st: Script) => (Proceeds, st),
    (id, st: Script) => if st == [] then (Some(false), st) else (Some(st[0]), st[1..]))

  /** With enough fuel `s` reads `script` and completes with `c`. */
  ghost predicate Takes(s: Stmt, labels: set<Label>, c: Completion, script: Script, n: nat) {
    forall rest: Script, fuel: nat :: fuel >= n ==> Exec(SCRIPTED, s, labels, script + rest, fuel) == (c, rest)
  }

  ghost predicate TakesAll(ss: seq<Stmt>, c: Completion, script: Script, n: nat) {
    forall rest: Script, fuel: nat :: fuel >= n ==> ExecAll(SCRIPTED, ss, script + rest, fuel) == (c, rest)
  }

  lemma {:induction false} Verdict(v: bool, script: Script, rest: Script)
    ensures ([v] + script + rest)[0] == v && ([v] + script + rest)[1..] == script + rest && [v] + script + rest != []
  {}

  lemma {:induction false} MayCompleteTaken(s: Stmt, labels: set<Label>, c: Completion) returns (script: Script, n: nat)
    requires c in MayComplete(s, labels)
    ensures Takes(s, labels, c, script, n)
    decreases s, 1
  {
    match s
    case Action(_) => script, n := NothingRead(s, labels, c);
    case Block(ss) => script, n := MayCompleteAllTaken(ss, c); BlockTakes(ss, labels, c, script, n);
    case If(t, thn, els) =>
      var v := c in MayComplete(thn, {});
      script, n := MayCompleteTaken(if v then thn else els, {}, c);
      IfTakes(t, thn, els, labels, c, v, script, n);
      script := [v] + script;
    case While(_, _) => script, n := WhileTaken(s, labels, c);
    case DoWhile(_, _) => script, n := DoWhileTaken(s, labels, c);
    case Break(_) => script, n := NothingRead(s, labels, c);
    case Continue(_) => script, n := NothingRead(s, labels, c);
    case Labeled(l, body) =>
      var c0 :| c0 in MayComplete(body, labels + {l}) && c == if c0 == Breaks(Some(l)) then Normal else c0;
      script, n := MayCompleteTaken(body, labels + {l}, c0);
      LabeledTakes(l, body, labels, c0, script, n);
  }

  lemma {:induction false} NothingRead(s: Stmt, labels: set<Label>, c: Completion) returns (script: Script, n: nat)
    requires (s.Action? || s.Break? || s.Continue?) && c in MayComplete(s, labels)
    ensures Takes(s, labels, c, script, n)
  {
    script, n := [], 0;
    forall rest: Script
      ensures script + rest == rest
    {}
  }

  lemma {:induction false} BlockTakes(ss: seq<Stmt>, labels: set<Label>, c: Completion, script: Script, n: nat)
    requires TakesAll(ss, c, script, n)
    ensures Takes(Block(ss), labels, c, script, n)
  {}

  lemma {:induction false} LabeledTakes(l: Label, body: Stmt, labels: set<Label>, c: Completion, script: Script, n: nat)
    requires Takes(body, labels + {l}, c, script, n)
    ensures Takes(Labeled(l, body), labels, if c == Breaks(Some(l)) then Normal else c, script, n)
  {}

  lemma {:induction false} IfTakes(t: nat, thn: Stmt, els: Stmt, labels: set<Label>, c: Completion, v: bool,
                                   script: Script, n: nat)
    requires Takes(if v then thn else els, {}, c, script, n)
    ensures Takes(If(t, thn, els), labels, c, [v] + script, n)
  {
    forall rest: Script, fuel: nat | fuel >= n
      ensures Exec(SCRIPTED, If(t, thn, els), labels, [v] + script + rest, fuel) == (c, rest)
    {
      Verdict(v, script, rest);
    }
  }

  lemma {:induction false} MayCompleteAllTaken(ss: seq<Stmt>, c: Completion) returns (script: Script, n: nat)
    requires c in MayCompleteAll(ss)
    ensures TakesAll(ss, c, script, n)
    decreases ss, 2
  {
    if ss == [] {
      script, n := [], 0;
      forall rest: Script
        ensures script + rest == rest
      {}
    } else if c != Normal && c in MayComplete(ss[0], {}) {
      script, n := MayCompleteTaken(ss[0], {}, c);
    } else if Normal in MayComplete(ss[0], {}) {
      var first, m := MayCompleteTaken(ss[0], {}, Normal);
      var later, k := MayCompleteAllTaken(ss[1..], c);
      script, n := first + later, if m > k then m else k;
      SequenceTakes(ss, c, first, m, later, k);
    }
  }

  lemma {:induction false} SequenceTakes(ss: seq<Stmt>, c: Completion, first: Script, m: nat, later: Script, k: nat)
    requires ss != [] && Takes(ss[0], {}, Normal, first, m) && TakesAll(ss[1..], c, later, k)
    ensures TakesAll(ss, c, first + later, if m > k then m else k)
  {
    forall rest: Script, fuel: nat | fuel >= m && fuel >= k
      ensures ExecAll(SCRIPTED, ss, first + later + rest, fuel) == (c, rest)
    {
      assert first + later + rest == first + (later + rest);
      assert Exec(SCRIPTED, ss[0], {}, first + (later + rest), fuel) == (Normal, later + rest);
    }
  }

  lemma {:induction false} WhileTaken(s: Stmt, labels: set<Label>, c: Completion) returns (script: Script, n: nat)
    requires s.While? && c in MayComplete(s, labels)
    ensures Takes(s, labels, c, script, n)
    decreases s, 0
  {
    if c.Normal? {
      script, n := [false], 0;
      forall rest: Script
        ensures script + rest == [false] + [] + rest
      {}
      StopTakes(s, labels);
    } else {
      var c0 :| c0 in MayComplete(s.body, {}) && !LoopContinues(c0, labels) && LoopResult(c0) == c;
      var inner, m := MayCompleteTaken(s.body, {}, c0);
      script, n := [true] + inner, m + 1;
      PassTakes(s, labels, c0, inner, m);
    }
  }

  lemma {:induction false} StopTakes(s: Stmt, labels: set<Label>)
    requires s.While? || s.DoWhile?
    ensures forall rest: Script, fuel: nat :: Again(SCRIPTED, s, labels, [false] + rest, fuel) == (Normal, rest)
  {
    forall rest: Script, fuel: nat
      ensures Again(SCRIPTED, s, labels, [false] + rest, fuel) == (Normal, rest)
    {
      assert ([false] + rest)[0] == false && ([false] + rest)[1..] == rest;
    }
  }

  lemma {:induction false} PassTakes(s: Stmt, labels: set<Label>, c: Completion, inner: Script, m: nat)
    requires s.While? && Takes(s.body, {}, c, inner, m) && !LoopContinues(c, labels)
    ensures Takes(s, labels, LoopResult(c), [true] + inner, m + 1)
  {
    forall rest: Script, fuel: nat | fuel >= m + 1
      ensures Exec(SCRIPTED, s, labels, [true] + inner + rest, fuel) == (LoopResult(c), rest)
    {
      Verdict(true, inner, rest);
      assert Exec(SCRIPTED, s.body, {}, inner + rest, fuel - 1) == (c, rest);
      assert Again(SCRIPTED, s, labels, [true] + inner + rest, fuel) == (LoopResult(c), rest);
    }
  }

  lemma {:induction false} DoWhileTaken(s: Stmt, labels: set<Label>, c: Completion) returns (script: Script, n: nat)
    requires s.DoWhile? && c in MayComplete(s, labels)
    ensures Takes(s, labels, c, script, n)
    decreases s, 0
  {
    if c in Leaving(MayComplete(s.body, {}), labels) {
      var c0 :| c0 in MayComplete(s.body, {}) && !LoopContinues(c0, labels) && LoopResult(c0) == c;
      script, n := MayCompleteTaken(s.body, {}, c0);
    } else {
      var c0 :| c0 in MayComplete(s.body, {}) && LoopContinues(c0, labels);
      var inner, m := MayCompleteTaken(s.body, {}, c0);
      script, n := inner + [false], m;
      StopTakes(s, labels);
      forall rest: Script, fuel: nat | fuel >= m
        ensures Exec(SCRIPTED, s, labels, script + rest, fuel) == (c, rest)
      {
        assert inner + [false] + rest == inner + ([false] + rest);
        assert Exec(SCRIPTED, s.body, {}, inner + ([false] + rest), fuel) == (c0, [false] + rest);
      }
    }
  }

  // ---------------------------------------------------------------- jumps that target a loop

  /** A jump that acts on a loop labelled `labels`. */
  predicate Targets(c: Completion, labels: set<Label>) {
    c == Breaks(None) || c == Continues(None) || ContinuesTo(c, labels)
  }

  predicate ContinuesTo(c: Completion, labels: set<Label>) {
    c.Continues? && c.target.Some? && c.target.value in labels
  }

  /** The body of a loop labelled `labels` cannot complete with a jump of the loop. */
  predicate JumpFree(body: Stmt, labels: set<Label>) {
    forall c :: c in MayComplete(body, {}) ==> !Targets(c, labels)
  }

  /** No do-while in `s`, itself labelled `labels`, may be jumped out of or continued by its body. */
  predicate Lowerable(s: Stmt, labels: set<Label>) {
    match s
    case Action(_) | Break(_) | Continue(_) => true
    case Block(ss) => LowerableAll(ss)
    case If(_, thn, els) => Lowerable(thn, {}) && Lowerable(els, {})
    case While(_, body) => Lowerable(body, {})
    case DoWhile(body, _) => JumpFree(body, labels) && Lowerable(body, {})
    case Labeled(l, body) => Lowerable(body, labels + {l})
  }

  predicate LowerableAll(ss: seq<Stmt>) {
    ss == [] || (Lowerable(ss[0], {}) && LowerableAll(ss[1..]))
  }

  /** `s`, inside a loop with labels `labels`, contains no break or continue of that loop: an unlabelled one
      outside inner loops, or a continue to one of the labels. */
  predicate NoJumpOut(s: Stmt, labels: set<Label>) {
    match s
    case Action(_) => true
    case Block(ss) => NoJumpOutAll(ss, labels)
    case If(_, thn, els) => NoJumpOut(thn, labels) && NoJumpOut(els, labels)
    case While(_, body) => NoContinueTo(body, labels)
    case DoWhile(body, _) => NoContinueTo(body, labels)
    case Break(l) => l.Some?
    case Continue(l) => l.Some? && l.value !in labels
    case Labeled(_, body) => NoJumpOut(body, labels)
  }

  predicate NoJumpOutAll(ss: seq<Stmt>, labels: set<Label>) {
    ss == [] || (NoJumpOut(ss[0], labels) && NoJumpOutAll(ss[1..], labels))
  }

  /** No labelled continue to `labels`; for bodies of inner loops, whose unlabelled jumps stay inside. */
  predicate NoContinueTo(s: Stmt, labels: set<Label>) {
    match s
    case Action(_) | Break(_) => true
    case Block(ss) => NoContinueToAll(ss, labels)
    case If(_, thn, els) => NoContinueTo(thn, labels) && NoContinueTo(els, labels)
    case While(_, body) => NoContinueTo(body, labels)
    case DoWhile(body, _) => NoContinueTo(body, labels)
    case Continue(l) => l.Some? ==> l.value !in labels
    case Labeled(_, body) => NoContinueTo(body, labels)
  }

  predicate NoContinueToAll(ss: seq<Stmt>, labels: set<Label>) {
    ss == [] || (NoContinueTo(ss[0], labels) && NoContinueToAll(ss[1..], labels))
  }

  lemma {:induction false} NoContinueToMay(s: Stmt, on: set<Label>, labels: set<Label>)
    requires NoContinueTo(s, labels)
    ensures forall c :: c in MayComplete(s, on) ==> !ContinuesTo(c, labels)
    decreases s, 0
  {
    match s
    case Action(_) =>
    case Block(ss) => NoContinueToAllMay(ss, labels);
    case If(_, thn, els) => NoContinueToMay(thn, {}, labels); NoContinueToMay(els, {}, labels);
    case While(_, body) => NoContinueToMay(body, {}, labels);
    case DoWhile(body, _) => NoContinueToMay(body, {}, labels);
    case Break(_) =>
    case Continue(_) =>
    case Labeled(l, body) => NoContinueToMay(body, on + {l}, labels);
  }

  lemma {:induction false} NoContinueToAllMay(ss: seq<Stmt>, labels: set<Label>)
    requires NoContinueToAll(ss, labels)
    ensures forall c :: c in MayCompleteAll(ss) ==> !ContinuesTo(c, labels)
    decreases ss, 1
  {
    if ss != [] {
      NoContinueToMay(ss[0], {}, labels);
      NoContinueToAllMay(ss[1..], labels);
    }
  }

  /** A statement that contains no jump to the loop cannot complete with one. */
  lemma {:induction false} NoJumpOutMay(s: Stmt, on: set<Label>, labels: set<Label>)
    requires NoJumpOut(s, labels)
    ensures forall c :: c in MayComplete(s, on) ==> !Targets(c, labels)
    decreases s, 0
  {
    match s
    case Action(_) =>
    case Block(ss) => NoJumpOutAllMay(ss, labels);
    case If(_, thn, els) => NoJumpOutMay(thn, {}, labels); NoJumpOutMay(els, {}, labels);
    case While(_, body) => NoContinueToMay(body, {}, labels);
    case DoWhile(body, _) => NoContinueToMay(body, {}, labels);
    case Break(_) =>
    case Continue(_) =>
    case Labeled(l, body) => NoJumpOutMay(body, on + {l}, labels);
  }

  lemma {:induction false} NoJumpOutAllMay(ss: seq<Stmt>, labels: set<Label>)
    requires NoJumpOutAll(ss, labels)
    ensures forall c :: c in MayCompleteAll(ss) ==> !Targets(c, labels)
    decreases ss, 1
  {
    if ss != [] {
      NoJumpOutMay(ss[0], {}, labels);
      NoJumpOutAllMay(ss[1..], labels);
    }
  }

  lemma {:induction false} NoJumpOutCompletes<S>(w: World<S>, s: Stmt, on: set<Label>, labels: set<Label>, st: S,
                                                 fuel: nat)
    requires NoJumpOut(s, labels)
    ensures !Targets(Exec(w, s, on, st, fuel).0, labels)
  {
    MayCompleteSound(w, s, on, st, fuel);
    NoJumpOutMay(s, on, labels);
  }

  /** A body without jumps of the loop in its text is fit for lowering. */
  lemma {:induction false} JumplessIsLowerable(body: Stmt, t: nat, labels: set<Label>)
    requires NoJumpOut(body, labels) && Lowerable(body, {})
    ensures Lowerable(DoWhile(body, t), labels)
  {
    NoJumpOutMay(body, {}, labels);
  }

  // ---------------------------------------------------------------- meaning is preserved

  /** The lowered program completes the same way in the same state for every amount of fuel, so it also
      diverges exactly when the original does. */
  lemma {:induction false} LowerPreserves<S>(w: World<S>, s: Stmt, labels: set<Label>, st: S, fuel: nat)
    requires Lowerable(s, labels)
    ensures Exec(w, Lower(s), labels, st, fuel) == Exec(w, s, labels, st, fuel)
    decreases fuel, s, 1
  {
    match s
    case Action(_) =>
    case Break(_) =>
    case Continue(_) =>
    case Block(ss) => LowerAllPreserves(w, ss, st, fuel);
    case If(t, thn, els) =>
      var (b, st1) := w.test(t, st);
      if b.Some? { LowerPreserves(w, if b.value then thn else els, {}, st1, fuel); }
    case While(_, _) => WhilePreserves(w, s, labels, st, fuel);
    case DoWhile(body, t) =>
      LowerPreserves(w, body, {}, st, fuel);
      MayCompleteSound(w, body, {}, st, fuel);
      var (c, st1) := Exec(w, body, {}, st, fuel);
      LoweredLoop(w, Lower(body), t, st, fuel);
      if c.Normal? {
        AgainAgreesIff(w, s, labels, st1, fuel);
        NoPassContinues(w, s, labels, st1, fuel);
      }
    case Labeled(l, body) => LowerPreserves(w, body, labels + {l}, st, fuel);
  }

  /** One pass, then the while loop. */
  lemma {:induction false} LoweredLoop<S>(w: World<S>, body: Stmt, t: nat, st: S, fuel: nat)
    ensures var (c, st1) := Exec(w, body, {}, st, fuel);
            ExecAll(w, [body, While(t, body)], st, fuel)
            == if c.Normal? then Again(w, While(t, body), {}, st1, fuel) else (c, st1)
  {
    var ss := [body, While(t, body)];
    assert ss[1..] == [While(t, body)] && ss[1..][1..] == [];
    var st1 := Exec(w, body, {}, st, fuel).1;
    assert ExecAll(w, ss[1..], st1, fuel) == Exec(w, While(t, body), {}, st1, fuel);
  }

  lemma {:induction false} LowerAllPreserves<S>(w: World<S>, ss: seq<Stmt>, st: S, fuel: nat)
    requires LowerableAll(ss)
    ensures ExecAll(w, LowerAll(ss), st, fuel) == ExecAll(w, ss, st, fuel)
    decreases fuel, ss, 2
  {
    if ss != [] {
      LowerPreserves(w, ss[0], {}, st, fuel);
      LowerAllPreserves(w, ss[1..], Exec(w, ss[0], {}, st, fuel).1, fuel);
      assert LowerAll(ss)[1..] == LowerAll(ss[1..]);
    }
  }

  /** A while loop keeps its labels. */
  lemma {:induction false} WhilePreserves<S>(w: World<S>, s: Stmt, labels: set<Label>, st: S, fuel: nat)
    requires s.While? && Lowerable(s.body, {})
    ensures Again(w, While(s.test, Lower(s.body)), labels, st, fuel) == Again(w, s, labels, st, fuel)
    decreases fuel, s, 0
  {
    var (b, st1) := w.test(s.test, st);
    if b == Some(true) && fuel > 0 {
      LowerPreserves(w, s.body, {}, st1, fuel - 1);
      var (c, st2) := Exec(w, s.body, {}, st1, fuel - 1);
      if LoopContinues(c, labels) { WhilePreserves(w, s, labels, st2, fuel - 1); }
    }
  }

  /** Some pass after the first completes with a continue to one of the loop's labels. */
  predicate PassContinues<S>(w: World<S>, s: Stmt, labels: set<Label>, st: S, fuel: nat)
    requires s.DoWhile?
    decreases fuel
  {
    var (b, st1) := w.test(s.test, st);
    b == Some(true) && fuel > 0 &&
    var (c, st2) := Exec(w, s.body, {}, st1, fuel - 1);
    ContinuesTo(c, labels) || (LoopContinues(c, labels) && PassContinues(w, s, labels, st2, fuel - 1))
  }

  lemma {:induction false} NoPassContinues<S>(w: World<S>, s: Stmt, labels: set<Label>, st: S, fuel: nat)
    requires s.DoWhile? && JumpFree(s.body, labels)
    ensures !PassContinues(w, s, labels, st, fuel)
    decreases fuel
  {
    var (b, st1) := w.test(s.test, st);
    if b == Some(true) && fuel > 0 {
      MayCompleteSound(w, s.body, {}, st1, fuel - 1);
      NoPassContinues(w, s, labels, Exec(w, s.body, {}, st1, fuel - 1).1, fuel - 1);
    }
  }

  lemma {:induction false} AgainUntargeted<S>(w: World<S>, s: Stmt, labels: set<Label>, st: S, fuel: nat)
    requires s.While? || s.DoWhile?
    ensures !Targets(Again(w, s, labels, st, fuel).0, labels)
    decreases fuel
  {
    var (b, st1) := w.test(s.test, st);
    if b == Some(true) && fuel > 0 {
      var (c, st2) := Exec(w, s.body, {}, st1, fuel - 1);
      if LoopContinues(c, labels) { AgainUntargeted(w, s, labels, st2, fuel - 1); }
    }
  }

  /** The passes after the first: the lowered loop has lost its labels, so it agrees exactly when none of them
      completes with a continue to one. */
  lemma {:induction false} AgainAgreesIff<S>(w: World<S>, s: Stmt, labels: set<Label>, st: S, fuel: nat)
    requires s.DoWhile? && Lowerable(s.body, {})
    ensures Again(w, While(s.test, Lower(s.body)), {}, st, fuel) == Again(w, s, labels, st, fuel)
       <==> !PassContinues(w, s, labels, st, fuel)
    decreases fuel, s, 0
  {
    var (b, st1) := w.test(s.test, st);
    if b == Some(true) && fuel > 0 {
      LowerPreserves(w, s.body, {}, st1, fuel - 1);
      var (c, st2) := Exec(w, s.body, {}, st1, fuel - 1);
      if ContinuesTo(c, labels) {
        AgainUntargeted(w, s, labels, st2, fuel - 1);
      } else if LoopContinues(c, labels) {
        AgainAgreesIff(w, s, labels, st2, fuel - 1);
      }
    }
  }

  // ---------------------------------------------------------------- exactly when

  /** Some pass of the do-while continues it by label, or its first pass jumps without a label. */
  predicate JumpTaken<S>(w: World<S>, s: Stmt, labels: set<Label>, st: S, fuel: nat)
    requires s.DoWhile?
  {
    var (c, st1) := Exec(w, s.body, {}, st, fuel);
    Targets(c, labels) || (c.Normal? && PassContinues(w, s, labels, st1, fuel))
  }

  /** In a given run a do-while, labelled or not, and its lowered form agree exactly when the first pass of the body
      completes with no jump of the loop and no later pass with a continue to one of its labels. */
  lemma {:induction false} LoweringAgreesIff<S>(w: World<S>, body: Stmt, t: nat, labels: set<Label>, st: S, fuel: nat)
    requires Lowerable(body, {})
    ensures Exec(w, Lower(DoWhile(body, t)), labels, st, fuel) == Exec(w, DoWhile(body, t), labels, st, fuel)
       <==> !JumpTaken(w, DoWhile(body, t), labels, st, fuel)
  {
    var s := DoWhile(body, t);
    LowerPreserves(w, body, {}, st, fuel);
    LoweredLoop(w, Lower(body), t, st, fuel);
    var (c, st1) := Exec(w, body, {}, st, fuel);
    AgainAgreesIff(w, s, labels, st1, fuel);
    AgainUntargeted(w, s, labels, st1, fuel);
  }

  ghost predicate AlwaysAgrees(s: Stmt, labels: set<Label>) {
    forall w: World<Script>, st: Script, fuel: nat ::
      Exec(w, Lower(s), labels, st, fuel) == Exec(w, s, labels, st, fuel)
  }

  /** What the lowering pass could check: it is right in every run if and only if the body cannot complete with a jump
      of the loop. */
  lemma {:induction false} AlwaysAgreesIff(body: Stmt, t: nat, labels: set<Label>)
    requires Lowerable(body, {})
    ensures AlwaysAgrees(DoWhile(body, t), labels) <==> JumpFree(body, labels)
  {
    var s := DoWhile(body, t);
    if JumpFree(body, labels) {
      forall w: World<Script>, st: Script, fuel: nat
        ensures Exec(w, Lower(s), labels, st, fuel) == Exec(w, s, labels, st, fuel)
      {
        LowerPreserves(w, s, labels, st, fuel);
      }
    } else {
      var c :| c in MayComplete(body, {}) && Targets(c, labels);
      var script, n := MayCompleteTaken(body, {}, c);
      assert Exec(SCRIPTED, body, {}, script + [], n) == (c, []);
      LoweringAgreesIff(SCRIPTED, body, t, labels, script + [], n);
      assert JumpTaken(SCRIPTED, s, labels, script + [], n);
    }
  }

  /** A first pass that breaks: the original loop ends, the lowered one breaks out of whatever is around it. */
  lemma {:induction false} BreakEscapes<S>(w: World<S>, t: nat, st: S, fuel: nat)
    ensures Exec(w, DoWhile(Break(None), t), {}, st, fuel).0 == Normal
    ensures Exec(w, Lower(DoWhile(Break(None), t)), {}, st, fuel).0 == Breaks(None)
  {
    LoweredLoop(w, Break(None), t, st, fuel);
  }

  /** `l: do { continue l } while (t)` with a test that fails: the original ends normally, the lowered form does not. */
  lemma {:induction false} LabelledContinueEscapes<S>(w: World<S>, l: Label, t: nat, st: S, fuel: nat)
    requires w.test(t, st).0 == Some(false)
    ensures var s := Labeled(l, DoWhile(Continue(Some(l)), t));
            && Exec(w, s, {}, st, fuel).0 == Normal
            && Exec(w, Lower(s), {}, st, fuel).0 == Continues(Some(l))
  {
    var body := Continue(Some(l));
    LoweredLoop(w, body, t, st, fuel);
    assert Exec(w, DoWhile(body, t), {} + {l}, st, fuel).0 == Normal;
    assert Exec(w, Lower(DoWhile(body, t)), {} + {l}, st, fuel).0 == Continues(Some(l));
    assert Lower(Labeled(l, DoWhile(body, t))) == Labeled(l, Lower(DoWhile(body, t)));
  }
}
