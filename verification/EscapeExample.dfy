/** Single assignment alone is not enough: a value carried round a loop backwards in visiting order. */
module EscapeExample {
  import opened EscapeAnalysis
  import opened EscapeSoundness
  import opened Options

  const BODY := Block([ExprStmt(Assign("x", Ident("y"))), ExprStmt(Assign("y", New(0, [])))])

  const LOOP := While(Literal, BODY)

  /** `while (..) { x = y; y = new C(); } return x;` */
  const PROGRAM := [LOOP, Return(Ident("x"))]

  const TWICE: Oracle := t => Choice(t < 4, false, None)

  lemma {:induction false} BodyEvents()
    ensures Repeated(LOOP) == StmtEvents(LOOP) == StmtEvents(BODY)
    ensures StmtEvents(BODY) == [Flow("x", FromVariable("y")), Reset(0), Flow("y", FromSite(0))]
  {
    var a, b := BODY.ss[0], BODY.ss[1];
    assert BODY.ss[1..] == [b] && [b][1..] == [];
    assert SinkEvents([]) == [];
    assert StmtEvents(a) == [Flow("x", FromVariable("y"))];
    assert Events(New(0, [])) == [Reset(0)];
    assert StmtEvents(b) == [Reset(0), Flow("y", FromSite(0))];
    assert AllEvents([b]) == StmtEvents(b);
    assert StmtEvents(BODY) == StmtEvents(a) + StmtEvents(b);
    assert Events(Literal) + StmtEvents(BODY) == StmtEvents(BODY);
  }

  lemma {:induction false} ProgramEvents()
    ensures AllEvents(PROGRAM) == EVENTS
  {
    BodyEvents();
    assert PROGRAM[1..] == [Return(Ident("x"))] && PROGRAM[1..][1..] == [];
    assert AllEvents(PROGRAM[1..]) == [Sink(FromVariable("x"))];
  }

  const EVENTS := [Flow("x", FromVariable("y")), Reset(0), Flow("y", FromSite(0)), Sink(FromVariable("x"))]

  const FACTS := Facts(map["x" := {}, "y" := {0}], {})

  lemma {:induction false} EventsApplied()
    ensures ApplyAll(NOTHING, EVENTS) == FACTS
  {
    var f1 := Apply(NOTHING, EVENTS[0]);
    var f2 := Apply(f1, EVENTS[1]);
    var rest := EVENTS[1..];
    assert rest == [Reset(0), Flow("y", FromSite(0)), Sink(FromVariable("x"))];
    assert rest[1..] == [Flow("y", FromSite(0)), Sink(FromVariable("x"))];
    assert rest[1..][1..] == [Sink(FromVariable("x"))] && rest[1..][1..][1..] == [];
    assert f2 == Facts(map["x" := {}], {});
    assert Apply(f2, EVENTS[2]) == FACTS && Apply(FACTS, EVENTS[3]) == FACTS;
    assert ApplyAll(FACTS, [Sink(FromVariable("x"))]) == FACTS;
  }

  lemma {:induction false} ProgramTracked()
    ensures BodyTracked(PROGRAM)
  {
    assert PROGRAM[1..] == [Return(Ident("x"))] && PROGRAM[1..][1..] == [];
    var ss := BODY.ss;
    assert ss[1..] == [ss[1]] && ss[1..][1..] == [];
    assert StmtTracked(ss[0]) && StmtTracked(ss[1]) by { assert AllTracked([]); }
    assert BodyTracked(ss[1..]) && BodyTracked(ss);
    assert StmtTracked(BODY) && StmtTracked(LOOP);
    assert BodyTracked(PROGRAM[1..]);
  }

  /** Every variable is assigned once and every value is tracked, but the loop reads `y` before it assigns it, and a
      second visit of the loop would copy more. */
  lemma {:induction false} NothingFlagged()
    ensures Flagged(PROGRAM) == {} && BodyTracked(PROGRAM) && AssignedOnce(AllEvents(PROGRAM))
    ensures !BodyStable(FinalFacts(PROGRAM), PROGRAM)
  {
    ProgramEvents();
    EventsApplied();
    ProgramTracked();
    LoopUnstable();
  }

  lemma {:induction false} LoopUnstable()
    ensures !StmtStable(FACTS, LOOP)
  {
    BodyEvents();
    UnstableAt(FACTS, Repeated(LOOP), 0, 2);
  }

  /** One iteration: `x` takes the old value of `y`, `y` a new object. */
  lemma {:induction false} Iteration(st: State, fuel: nat)
    requires st.tick == 1 || st.tick == 3
    ensures var old_y := if "y" in st.env then st.env["y"] else Other;
            Exec(TWICE, st, BODY, fuel) ==
              (Normal, State(st.env["x" := old_y]["y" := Object(0)], st.leaked, st.tick + 1))
  {
    var a, b := BODY.ss[0], BODY.ss[1];
    assert BODY.ss[1..] == [b] && [b][1..] == [];
    var old_y := if "y" in st.env then st.env["y"] else Other;
    var st1 := st.(env := st.env["x" := old_y]);
    assert Exec(TWICE, st, a, fuel) == (Normal, st1);
    assert EvalSinks(TWICE, st1, []) == (true, st1);
    assert Eval(TWICE, st1, New(0, [])) == Outcome(Some(Object(0)), st1.(tick := st.tick + 1));
    assert Exec(TWICE, st1, b, fuel) == (Normal, State(st1.env["y" := Object(0)], st.leaked, st.tick + 1));
    assert ExecAll(TWICE, st1, [b], fuel) == Exec(TWICE, st1, b, fuel);
  }

  const START := State(map[], {}, 0)
  const ONCE := State(map["x" := Other, "y" := Object(0)], {}, 2)
  const DONE := State(map["x" := Object(0), "y" := Object(0)], {}, 5)

  lemma {:induction false} LoopTwice()
    ensures Loop(TWICE, START, LOOP, 2) == (Normal, DONE)
  {
    Iteration(START.(tick := 1), 2);
    assert map[]["x" := Other]["y" := Object(0)] == ONCE.env;
    Iteration(ONCE.(tick := 3), 1);
    assert ONCE.env["x" := Object(0)]["y" := Object(0)] == DONE.env;
    var st2 := DONE.(tick := 4);
    assert Test(TWICE, START, LOOP) == (Some(true), START.(tick := 1));
    assert Test(TWICE, ONCE, LOOP) == (Some(true), ONCE.(tick := 3));
    assert Test(TWICE, st2, LOOP) == (Some(false), DONE);
    assert Loop(TWICE, st2, LOOP, 0) == (Normal, DONE);
    assert Loop(TWICE, ONCE, LOOP, 1) == Loop(TWICE, st2, LOOP, 0);
    assert Loop(TWICE, START, LOOP, 2) == Loop(TWICE, ONCE, LOOP, 1);
  }

  /** Going round twice returns the object of the unflagged site. */
  lemma {:induction false} UnflaggedObjectLeaks()
    ensures 0 in Run(TWICE, PROGRAM, 2).1.leaked && 0 !in Flagged(PROGRAM)
  {
    NothingFlagged();
    LoopTwice();
    ReturnAfterLoop();
  }

  lemma {:induction false} ReturnAfterLoop()
    requires Loop(TWICE, START, LOOP, 2) == (Normal, DONE)
    ensures 0 in Run(TWICE, PROGRAM, 2).1.leaked
  {
    var rest := PROGRAM[1..];
    assert PROGRAM[0] == LOOP && rest == [Return(Ident("x"))];
    assert Exec(TWICE, START, LOOP, 2) == (Normal, DONE);
    assert Eval(TWICE, DONE, Ident("x")) == Outcome(Some(Object(0)), DONE);
    assert Exec(TWICE, DONE, rest[0], 2) == (Returns, Leak(DONE, Object(0)));
    assert ExecAll(TWICE, DONE, rest, 2) == (Returns, Leak(DONE, Object(0)));
  }

  // ---------------------------------------------------------------- stability is not necessary

  const ONE_PASS := Block([ExprStmt(Call(Ident("g"), [Ident("y")])), ExprStmt(Assign("y", New(0, []))), Break])

  /** `while (..) { g(y); y = new C(); break; }` */
  const BROKEN_LOOP := While(Literal, ONE_PASS)

  lemma {:induction false} OnePassEvents()
    ensures StmtEvents(ONE_PASS) == ONE_PASS_EVENTS
    ensures Repeated(BROKEN_LOOP) == ONE_PASS_EVENTS && AllEvents([BROKEN_LOOP]) == ONE_PASS_EVENTS
  {
    var ss := ONE_PASS.ss;
    assert ss[1..] == [ss[1], Break] && ss[1..][1..] == [Break] && [Break][1..] == [];
    assert SinkEvents([]) == [] && [Ident("y")][1..] == [];
    assert SinkEvents([Ident("y")]) == [Sink(FromVariable("y"))];
    assert StmtEvents(ss[0]) == [Sink(FromVariable("y"))];
    assert StmtEvents(ss[1]) == [Reset(0), Flow("y", FromSite(0))];
    assert AllEvents([Break]) == [];
    assert AllEvents(ss[1..]) == StmtEvents(ss[1]);
    assert Events(Literal) + StmtEvents(ONE_PASS) == StmtEvents(ONE_PASS);
    assert [BROKEN_LOOP][1..] == [];
  }

  const ONE_PASS_EVENTS := [Sink(FromVariable("y")), Reset(0), Flow("y", FromSite(0))]

  const ONE_PASS_FACTS := Facts(map["y" := {0}], {})

  lemma {:induction false} OnePassFacts()
    ensures ApplyAll(NOTHING, ONE_PASS_EVENTS) == ONE_PASS_FACTS
  {
    var rest := ONE_PASS_EVENTS[1..];
    assert rest == [Reset(0), Flow("y", FromSite(0))] && rest[1..] == [Flow("y", FromSite(0))] && rest[1..][1..] == [];
    assert Apply(NOTHING, Sink(FromVariable("y"))) == NOTHING && Apply(NOTHING, Reset(0)) == NOTHING;
    assert Apply(NOTHING, Flow("y", FromSite(0))) == ONE_PASS_FACTS;
    assert ApplyAll(NOTHING, rest[1..]) == ONE_PASS_FACTS;
  }

  lemma {:induction false} UnstableAt(f: Facts, evs: seq<Event>, i: nat, j: nat)
    requires i < |evs| && j < |evs| && evs[j].Flow? && Reads(evs[i], evs[j].x) && !Holds(f, evs[i])
    ensures !LoopStable(f, evs)
  {
    assert evs[j].x in Flows(evs);
  }

  lemma {:induction false} UnstableLoop(t: Expr, body: Stmt, evs: seq<Event>, f: Facts)
    requires Repeated(While(t, body)) == evs && AllEvents([While(t, body)]) == evs && ApplyAll(NOTHING, evs) == f
    requires !LoopStable(f, evs)
    ensures !BodyStable(FinalFacts([While(t, body)]), [While(t, body)])
  {
    assert [While(t, body)][0] == While(t, body);
  }

  lemma {:induction false} BrokenLoopUnstable()
    ensures !BodyStable(FinalFacts([BROKEN_LOOP]), [BROKEN_LOOP])
  {
    OnePassEvents();
    OnePassFacts();
    UnstableAt(ONE_PASS_FACTS, ONE_PASS_EVENTS, 0, 2);
    UnstableLoop(Literal, ONE_PASS, ONE_PASS_EVENTS, ONE_PASS_FACTS);
  }

  /** A pass of the loop ends it, whatever happens. */
  lemma {:induction false} OnePassEnds(o: Oracle, tick: nat, fuel: nat)
    ensures var r := Exec(o, State(map[], {}, tick), ONE_PASS, fuel);
            (r.0.Breaks? || r.0.Throws?) && r.1.leaked == {}
  {
    var ss, st := ONE_PASS.ss, State(map[], {}, tick);
    var last := ss[1..][1..];
    assert ss[1..] == [ss[1], Break] && last == [Break];
    assert EvalSinks(o, st, [Ident("y")]) == (true, st) by { assert [Ident("y")][1..] == []; }
    var (c1, st1) := Exec(o, st, ss[0], fuel);
    assert st1.leaked == {} && (c1.Normal? || c1.Throws?);
    var (c2, st2) := Exec(o, st1, ss[1], fuel);
    assert st2.leaked == {} && (c2.Normal? || c2.Throws?) by { assert EvalSinks(o, st1, []) == (true, st1); }
    assert Exec(o, st2, last[0], fuel) == (Breaks, st2);
    assert ExecAll(o, st2, last, fuel) == (Breaks, st2);
    assert ExecAll(o, st1, ss[1..], fuel) == if c2.Normal? then (Breaks, st2) else (c2, st2);
    assert ExecAll(o, st, ss, fuel) == if c1.Normal? then ExecAll(o, st1, ss[1..], fuel) else (c1, st1);
  }

  lemma {:induction false} BrokenLoopRuns(o: Oracle, fuel: nat)
    ensures Loop(o, START, BROKEN_LOOP, fuel).1.leaked == {}
  {
    assert Eval(o, START, Literal) == Outcome(Some(Other), START);
    var (go, st1) := Test(o, START, BROKEN_LOOP);
    assert st1 == State(map[], {}, 1) && go.Some?;
    OnePassEnds(o, 1, fuel);
  }

  lemma {:induction false} RunsOne(o: Oracle, s: Stmt, fuel: nat)
    ensures Run(o, [s], fuel).1 == Exec(o, START, s, fuel).1
  {
    var ss, st1 := [s], Exec(o, START, s, fuel).1;
    assert ss[0] == s && ss[1..] == [];
    assert ExecAll(o, st1, ss[1..], fuel) == (Normal, st1);
    assert ExecAll(o, START, ss, fuel).1 == st1;
  }

  lemma {:induction false} WritesOnce()
    ensures AssignedOnce(ONE_PASS_EVENTS)
  {}

  /** The loop is not stable and nothing leaks in any run: it never goes round twice.  So stability suffices and is not
      necessary. */
  lemma {:induction false} UnstableYetSafe(o: Oracle, fuel: nat)
    ensures AssignedOnce(AllEvents([BROKEN_LOOP])) && !BodyStable(FinalFacts([BROKEN_LOOP]), [BROKEN_LOOP])
    ensures Run(o, [BROKEN_LOOP], fuel).1.leaked == {}
  {
    OnePassEvents();
    WritesOnce();
    BrokenLoopUnstable();
    BrokenLoopRuns(o, fuel);
    RunsOne(o, BROKEN_LOOP, fuel);
  }

  // ---------------------------------------------------------------- values the visitor does not follow

  /** `x = (y = new C()); return x;` */
  const CHAINED := [ExprStmt(Assign("x", Assign("y", New(0, [])))), Return(Ident("x"))]

  /** `return c ? new C() : null;` */
  const CHOSEN := [Return(Cond(Literal, New(0, []), Literal))]

  lemma {:induction false} UntrackedEvents()
    ensures Flagged(CHAINED) == {} && Flagged(CHOSEN) == {}
  {
    assert SinkEvents([]) == [] && Events(New(0, [])) == [Reset(0)];
    assert Events(Assign("y", New(0, []))) == [Reset(0), Flow("y", FromSite(0))];
    var evs := [Reset(0), Flow("y", FromSite(0)), Flow("x", Elsewhere)];
    assert StmtEvents(CHAINED[0]) == evs && CHAINED[1..] == [Return(Ident("x"))] && CHAINED[1..][1..] == [];
    assert AllEvents(CHAINED[1..]) == [Sink(FromVariable("x"))];
    assert AllEvents(CHAINED) == evs + [Sink(FromVariable("x"))];
    ApplyThen(NOTHING, evs, Sink(FromVariable("x")));
    ApplyThen(NOTHING, [Reset(0), Flow("y", FromSite(0))], Flow("x", Elsewhere));
    ApplyThen(NOTHING, [Reset(0)], Flow("y", FromSite(0)));
    assert [Reset(0)] + [Flow("y", FromSite(0))] == [Reset(0), Flow("y", FromSite(0))];
    assert [Reset(0), Flow("y", FromSite(0))] + [Flow("x", Elsewhere)] == evs;
    assert [Reset(0)][1..] == [];
    assert CHOSEN[1..] == [] && AllEvents(CHOSEN) == StmtEvents(CHOSEN[0]) == [Reset(0), Sink(Elsewhere)];
    ApplyThen(NOTHING, [Reset(0)], Sink(Elsewhere));
    assert [Reset(0)] + [Sink(Elsewhere)] == [Reset(0), Sink(Elsewhere)];
  }

  const START_STATE := State(map[], {}, 0)

  lemma {:induction false} ChainedRun(o: Oracle, fuel: nat)
    requires forall t :: o(t) == Choice(true, false, None)
    ensures Run(o, CHAINED, fuel).1.leaked == {0}
  {
    var st1 := State(map["y" := Object(0), "x" := Object(0)], {}, 1);
    NewObject(o, START_STATE);
    assert Eval(o, START_STATE, Assign("y", New(0, [])))
        == Outcome(Some(Object(0)), State(map["y" := Object(0)], {}, 1));
    assert map["y" := Object(0)]["x" := Object(0)] == st1.env;
    assert Exec(o, START_STATE, CHAINED[0], fuel) == (Normal, st1);
    assert CHAINED[1..] == [Return(Ident("x"))];
    ReturnsIt(o, st1, fuel);
  }

  lemma {:induction false} NewObject(o: Oracle, st: State)
    requires forall t :: o(t) == Choice(true, false, None)
    ensures Eval(o, st, New(0, [])) == Outcome(Some(Object(0)), st.(tick := st.tick + 1))
  {
    assert EvalSinks(o, st, []) == (true, st);
  }

  lemma {:induction false} ReturnsIt(o: Oracle, st: State, fuel: nat)
    requires "x" in st.env && st.env["x"] == Object(0)
    ensures ExecAll(o, st, [Return(Ident("x"))], fuel).1.leaked == st.leaked + {0}
  {
    assert [Return(Ident("x"))][1..] == [];
  }

  lemma {:induction false} ChosenRun(o: Oracle, fuel: nat)
    requires forall t :: o(t) == Choice(true, false, None)
    ensures Run(o, CHOSEN, fuel).1.leaked == {0}
  {
    var st := START_STATE.(tick := 1);
    NewObject(o, st);
    assert Eval(o, START_STATE, Cond(Literal, New(0, []), Literal)) == Eval(o, st, New(0, []));
    assert CHOSEN[1..] == [] && Exec(o, START_STATE, CHOSEN[0], fuel).1.leaked == {0};
  }

  /** An object that reaches a variable through another assignment, or a return through a conditional, is not followed:
      nothing is flagged, and the object is returned. */
  lemma {:induction false} UntrackedLeaks(o: Oracle, fuel: nat)
    requires forall t :: o(t) == Choice(true, false, None)
    ensures Flagged(CHAINED) == {} && Run(o, CHAINED, fuel).1.leaked == {0}
    ensures Flagged(CHOSEN) == {} && Run(o, CHOSEN, fuel).1.leaked == {0}
  {
    UntrackedEvents();
    ChainedRun(o, fuel);
    ChosenRun(o, fuel);
  }

  // ---------------------------------------------------------------- flagged on no path

  const MAKES := ExprStmt(Assign("x", New(0, [])))

  const EITHER := If(Literal, MAKES, Return(Ident("x")))

  lemma {:induction false} EitherFlagged()
    ensures Flagged([EITHER]) == {0}
  {
    assert SinkEvents([]) == [] && Events(New(0, [])) == [Reset(0)];
    assert StmtEvents(MAKES) == [Reset(0), Flow("x", FromSite(0))];
    assert StmtEvents(EITHER) == Events(Literal) + StmtEvents(MAKES) + [Sink(FromVariable("x"))];
    assert [EITHER][1..] == [] && AllEvents([EITHER]) == [Reset(0), Flow("x", FromSite(0))] + [Sink(FromVariable("x"))];
    ApplyThen(NOTHING, [Reset(0), Flow("x", FromSite(0))], Sink(FromVariable("x")));
    assert [Reset(0), Flow("x", FromSite(0))] == [Reset(0)] + [Flow("x", FromSite(0))];
    ApplyThen(NOTHING, [Reset(0)], Flow("x", FromSite(0)));
    assert [Reset(0)][1..] == [];
  }

  /** `if (c) x = new C(); else return x;` flags the object, which no run returns: precision needs code without
      branches. */
  lemma {:induction false} FlaggedInVain(o: Oracle, fuel: nat)
    ensures Flagged([EITHER]) == {0} && Run(o, [EITHER], fuel).1.leaked == {}
  {
    EitherFlagged();
    var st := Draw(o, START_STATE).1;
    assert st.leaked == {} && st.env == map[];
    assert EvalSinks(o, st, []) == (true, st);
    assert Eval(o, st, New(0, [])).st.leaked == {} && Eval(o, st, Assign("x", New(0, []))).st.leaked == {};
    assert Exec(o, st, MAKES, fuel).1.leaked == {};
    assert Eval(o, st, Ident("x")) == Outcome(Some(Other), st);
    assert Exec(o, st, Return(Ident("x")), fuel).1.leaked == {};
    assert Eval(o, START_STATE, Literal) == Outcome(Some(Other), START_STATE);
    var (c, st1) := Exec(o, START_STATE, EITHER, fuel);
    assert (c, st1) == Exec(o, st, if Draw(o, START_STATE).0.branch then MAKES else Return(Ident("x")), fuel);
    assert st1.leaked == {};
    assert [EITHER][1..] == [] && ExecAll(o, st1, [], fuel) == (Normal, st1);
  }
}
