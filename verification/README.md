# Verified models of ts-aot

ts-aot compiles TypeScript and JavaScript ahead of time. This project models the parts of it whose behaviour is
hardest to see from the code, and proves what they keep, preserve and promise. `dafny verify dfyconfig.toml` checks
everything.

| Files | What they model |
|---|---|
| `ModuleGraph`, `ResolveExport`, `ResolveProperties`, `ExportRoutes`, `SwallowedStars`, `OwnExports` | the export search `resolveModuleExport` on arbitrary, possibly cyclic graphs of direct, renamed and star re-exports (section 16.2.1.6.3 of ECMA-262) |
| `Linker`, `Analyzer`, `LinkedGraphs`, `Loading` | loading and linking: what hoisting, imports, re-exports and local exports do to the module records, as functions on values and as the analyser object that runs them |
| `LinkErrors`, `LinkedBindings`, `LinkMessages`, `CyclicLinkErrors`, `RecordTables`, `ExportTables`, `FinishingOrder`, `CyclicImports` | whole programs: which link error reaches the entry, with and without import cycles, the eager export tables against the search, the finishing order, and a cycle of star exports that links wrongly |
| `FastSyntax`, `FastCheck`, `Closures`, `ClosureErasure`, `CaptureExact`, `CaptureExample` | the capture check of the "use fast" subset and the semantic theorem behind it: accepted programs run the same without closures; and what exactly is reported |
| `EscapeAnalysis`, `EscapeSoundness`, `EscapePrecision`, `EscapeExample` | the escape analysis and its soundness against runs with arbitrary branches, failures and objects handed back |
| `Bytes`, `Framing` | the length-prefixed frames of the chat protocol and the incremental parser |
| `ChatProtocol`, `ChatCommands`, `ChatServer`, `ChatInvariants`, `ChatRooms`, `ChatSessions`, `ChatBytes`, `ChatManager` | the chat server: commands, sessions, nicknames, passwords, rooms and sent messages over all sequences of events, on messages and on the bytes they arrive in |
| `DoWhileLowering` | the lowering of do-while loops in the AST dump |
| `TypeInference` | generic argument inference and substitution |
| `AbstractMethods` | abstract-method bookkeeping down a class hierarchy |
| `LinkClosure` | the transitive closure of the libraries a program links against |
| `JobQueue`, `JobRuns` | the worker's job queue and whole runs of the worker |
| `VaultFile` | the header codec and the encrypt/decrypt pipeline of the file vault |

Where the source updates an object step by step, a class with the same fields does so here, and each of its methods
is proved to compute a function of the old state; the theorems are about those functions.

## What the code does that its documentation does not say

* A star branch whose own result is AMBIGUOUS contributes nothing (`Analyzer_Declarations.cpp` line 163), and a branch
  cut off by the visited set falls back on the export table of the module it stopped at (lines 175-185). Because
  `export *` copies names eagerly into those tables, a cycle of star exports can report AMBIGUOUS for a name that only
  one module declares: `CyclicImports.LoadBuildsCyclicStars` loads three such files. `ExportRoutes.Open` is a
  condition on the tables under which the search is right. Without renamed re-exports, and as long as no branch below
  the query is itself AMBIGUOUS, it is the exact one (`SwallowedStars.StarSearchRightIff`), and it decides the cycle just
  mentioned (`SwallowedStars.CyclicStarsCovered`); with a swallowed branch the answer may be right although the query
  is not open (`SwallowedStars.RightThoughNotOpen`). It holds of every graph whose tables hold a module's own names
  only, and of every linked acyclic program whose named re-exports resolve and whose local exports are bound. A named
  re-export that the CommonJS leniency forgives, but that stands in the way of a name copied by `export *`, breaks it
  without any cycle (`SwallowedStars.ForgivenReexportMisleads`).
* Exported classes, interfaces, type aliases and enums are put in the export table but not among the direct exports
  (lines 58-68, 88-119), so the local declaration does not win over star exports as line 146 says it does: a star source
  that leads to another declaration of the name takes it over, and two make it AMBIGUOUS. Without renamed re-exports
  and swallowed branches the module's own name wins exactly if no star source leads to one elsewhere
  (`OwnExports.OwnNameWinsIff`); `OwnExports.StarBeatsOwnClass` is a program in which it loses.
* A link error is reported whenever some loaded module has one, import cycles included, unless a module without an
  error imports a failing one for its types alone (`CyclicLinkErrors.UnreportedIffHidden`). Inside a cycle that loses
  errors which value imports lead to as well: a module finished before the error arose never hears of it
  (`CyclicLinkErrors.CycleHidesFailure`).
* Single assignment does not make the escape analysis sound: `while (..) { x = y; y = new C(); } return x;` returns an
  object that is not flagged (`EscapeExample.UnflaggedObjectLeaks`). Only such a read, inside a loop and before the
  loop's own assignment, is dangerous: it is enough that a second visit of each loop would add nothing
  (`EscapeSoundness.OnlyFlaggedLeak`), and so that no loop reads a variable before assigning it
  (`EscapeSoundness.OnlyFlaggedLeakIfOrdered`).
* It does not follow a value through another assignment or a conditional either: in `x = (y = new C()); return x;` and
  `return c ? new C() : null;` nothing is flagged (`EscapeExample.UntrackedLeaks`).
* The capture check also reports a use of a nested function whose name hides a variable further out, although that
  captures nothing; otherwise it is exact (`CaptureExact.ReportsExactly`, `CaptureExact.HidingReported`).
* `{ S; while (t) S }` is not `do S while (t)` when the first pass of `S` breaks or continues the loop, and not either
  when any pass continues it by a label, which the lowered loop has lost (`DoWhileLowering.LoweringAgreesIff`). The
  lowering is right in every run exactly when `S` cannot complete with such a jump, which can be read off its text
  (`DoWhileLowering.AlwaysAgreesIff`).
* A type parameter that occurs only inside class arguments or unions is not inferred, although substitution would
  replace it there (`TypeInference.ArgumentsReproducedIff`).
* The parser's reset on an oversized length drops whatever happens to be buffered, so the messages of such a stream
  depend on how TCP cuts it (`Framing.ChunkInsensitiveIff`).
* A job that failed for good is forgotten by the time it was started, a completed one by the time it was completed
  (`JobRuns.ForgottenIff`).
* Disconnecting a session that shares its nickname deletes the survivor's nickname (`ChatInvariants.FindableLostIff`;
  `ChatInvariants.NicknameLost` is such a run).
* A failed job below the retry limit is rescheduled but never runs again (`JobRuns.RetryNeverRuns`, and from the
  start of the worker `JobRuns.RetryLost`).
* A static method is taken for the implementation of an abstract instance method, and the obligations of a base class
  declared after its subclass are forgotten (`AbstractMethods.StaticTakenForImplementation`, `LateBaseForgotten`).
  Nothing else goes wrong: `AbstractMethods.RightUnlessMissed` and `AbstractMethods.RightUnlessLate` are exact.

## Model

| member | source | states |
|---|---|---|
| ResolveExport.ResolveModuleExport | src/compiler/analysis/Analyzer_Declarations.cpp:129-187 | the search with its mutable visited set and star loop terminates on every graph and computes `Resolve`; the visited set only grows |
| ResolveExport.UniverseShrinks | src/compiler/analysis/Analyzer_Declarations.cpp:132-144 | termination measure: the (module, name) keys not yet visited shrink with every re-export followed |
| ResolveProperties.StarDefinersAre | src/compiler/analysis/Analyzer_Declarations.cpp:155-166 | the definers collected are exactly those some star branch gives |
| ResolveProperties.StarOrderIrrelevant | src/compiler/analysis/Analyzer_Declarations.cpp:150-172 | result and defining module do not depend on the order or repetition of star sources anywhere in the graph |
| ResolveProperties.CircularIffChainEndless | src/compiler/analysis/Analyzer_Declarations.cpp:132-144 | a query is CIRCULAR exactly when its chain of named re-exports never leaves the named re-exports |
| ExportRoutes.FoundIsReached | src/compiler/analysis/Analyzer_Declarations.cpp:129-187 | on any graph FOUND names a module a re-export route reaches, and AMBIGUOUS has two distinct ones |
| ExportRoutes.ReportsTheOneReached | src/compiler/analysis/Analyzer_Declarations.cpp:150-187 | despite visited sets scoped to the path, the search reports the one declaring module in sight exactly when a route avoiding the visited keys reaches it |
| ExportRoutes.ResolveReportsVisible | src/compiler/analysis/Analyzer_Declarations.cpp:129-187 | completeness on cyclic graphs: an open query is FOUND with the visible declaring module if and only if there is one, CIRCULAR exactly for endless chains, never AMBIGUOUS |
| SwallowedStars.BadRouteShows | src/compiler/analysis/Analyzer_Declarations.cpp:160-178 | a query that is not open shows it: some branch on the way is AMBIGUOUS, or the answer is a module whose table entry leads to no declaration |
| SwallowedStars.RightIffOpen | src/compiler/analysis/Analyzer_Declarations.cpp:129-187 | where no branch below the query is AMBIGUOUS and no module is reached both by a declaration and by a stray entry, the search is right, AMBIGUOUS counting as wrong, exactly when the query is open |
| SwallowedStars.StarSearchRightIff | src/compiler/analysis/Analyzer_Declarations.cpp:155-187 | on any graph of direct and star entries, cycles included, with no branch swallowed: the visible declaring module is reported, and no conflict, if and only if the query is open |
| SwallowedStars.CyclicStarsCovered | src/compiler/analysis/Analyzer_Declarations.cpp:160-178 | the theorem covers the cyclic star graph above: nothing is swallowed there, and the answer is wrong |
| SwallowedStars.RightThoughNotOpen | src/compiler/analysis/Analyzer_Declarations.cpp:160-172 | a graph on which an AMBIGUOUS branch is swallowed and the query, though not open, is answered rightly |
| SwallowedStars.ForgivenReexportMisleads | src/compiler/analysis/Analyzer_Declarations.cpp:173-178 | an acyclic graph whose one named re-export fails and is forgiven, on which the search reports a module that declares nothing |
| ExportRoutes.OwnTablesAreOpen | src/compiler/analysis/Analyzer_Declarations.cpp:173-178 | if tables hold only names the modules declare, the completeness condition holds of every query, cycles included |
| ExportRoutes.AcyclicIsOpen | src/compiler/analysis/Analyzer_Declarations.cpp:173-178 | without a re-export cycle an open query needs only that every copied name can be traced to a declaration |
| ExportRoutes.CyclicStarsMislead | src/compiler/analysis/Analyzer_Declarations.cpp:160-178 | a cyclic star graph with one declaring module on which the search says AMBIGUOUS |
| CyclicImports.LoadBuildsCyclicStars | src/compiler/analysis/Analyzer_Declarations.cpp:344-357 | loading three files really builds that graph |
| OwnExports.ReachedIsFound | src/compiler/analysis/Analyzer_Declarations.cpp:150-187 | on any graph a query from which some declaration is in reach is FOUND, unless it or a branch on the way is AMBIGUOUS |
| OwnExports.OwnNameWinsIff | src/compiler/analysis/Analyzer_Declarations.cpp:145-178 | with no renamed re-exports and no branch swallowed, a module's own name is what the search reports if and only if its star sources lead to no declaration elsewhere; otherwise another module is reported, or a conflict |
| OwnExports.StarBeatsOwnClass | src/compiler/analysis/Analyzer_Declarations.cpp:58-68 | loading `export class C` beside `export *` of a function `C` leaves tables on which `C` is the function |
| LinkingAnalyzer.Analyzer.LoadModule | src/compiler/analysis/Analyzer_Helpers.cpp:766-939 | a module is loaded once, registered before its body is analysed, and the caller's module is current again |
| LinkingAnalyzer.Analyzer.HoistDeclarations | src/compiler/analysis/Analyzer_Declarations.cpp:31-121 | the hoisting pass seeds the export records of the current module and no other |
| LinkingAnalyzer.Analyzer.VisitProgram | src/compiler/analysis/Analyzer_Declarations.cpp:16-127 | hoisting, then every statement in order, with the current module unchanged at the end |
| LinkingAnalyzer.Analyzer.AnalyzeModule | src/compiler/analysis/Analyzer_Core.cpp:207-339 | context saved and restored, the CommonJS default added, the module marked analysed and appended to the order |
| LinkingAnalyzer.Analyzer.Analyze | src/compiler/analysis/Analyzer_Core.cpp:16-124 | the entry file analysed in place; its link error, prefixed once, is what the compilation reports |
| LinkingAnalyzer.Analyzer.VisitImportDeclaration | src/compiler/analysis/Analyzer_Declarations.cpp:202-319 | passed-on error, then the default binding, then the named bindings in order |
| LinkingAnalyzer.Analyzer.VisitDefaultImport | src/compiler/analysis/Analyzer_Declarations.cpp:217-236 | the passed-on error first, then a default binding that fails unless CommonJS interop applies |
| LinkingAnalyzer.Analyzer.VisitNamedImport | src/compiler/analysis/Analyzer_Declarations.cpp:278-289 | a named binding fails on CIRCULAR and AMBIGUOUS, and on NOT_FOUND unless CommonJS interop applies |
| LinkingAnalyzer.Analyzer.VisitExportFrom | src/compiler/analysis/Analyzer_Declarations.cpp:321-357 | namespace, star and named re-exports and the tables they fill |
| LinkingAnalyzer.Analyzer.VisitReexport | src/compiler/analysis/Analyzer_Declarations.cpp:359-397 | the entry is recorded before it is resolved; a failed one binds nothing |
| LinkedGraphs.FoldAgrees | src/compiler/analysis/Analyzer_Declarations.cpp:202-416 | what a module's statements make of it depends only on the modules below it |
| LinkedGraphs.ResolveAgrees | src/compiler/analysis/Analyzer_Declarations.cpp:129-187 | the search sees only modules of smaller rank on an acyclic graph |
| LinkedGraphs.VisitedAboveIgnored | src/compiler/analysis/Analyzer_Declarations.cpp:133-135 | visited keys above a module do not change what it resolves to |
| Loading.LoadSettles | src/compiler/analysis/Analyzer_Core.cpp:207-328 | every load leaves the modules below a rank finished, whatever was in progress above |
| Loading.LoadLinks | src/compiler/analysis/Analyzer_Core.cpp:207-328 | loading an acyclic program leaves every record equal to the fold of its own statements over the final graph |
| FinishingOrder.FinishesOnce | src/compiler/analysis/Analyzer_Core.cpp:327-328 | on any graph, cyclic or not, each module finishes once and the entry last |
| FinishingOrder.FinishesAll | src/compiler/analysis/Analyzer_Core.cpp:327-328 | on any graph the list holds exactly the modules loaded that have a body or failed to parse |
| FinishingOrder.FinishesInDependencyOrder | src/compiler/analysis/Analyzer_Core.cpp:118-119 | without import cycles every module finishes after all modules it loads |
| LinkErrors.StepBlame | src/compiler/analysis/Analyzer_Declarations.cpp:202-397 | one statement adds the error it passes on and its own failed bindings behind what is already there |
| LinkErrors.SettledError | src/compiler/analysis/Analyzer_Declarations.cpp:217-236 | the error of a finished module from the records of the modules it names |
| LinkErrors.FirstErrorKept | src/compiler/analysis/Analyzer_Declarations.cpp:217-236 | the message kept is the first in depth-first statement order over everything below |
| LinkErrors.ErrorHasCause | src/compiler/analysis/Analyzer_Declarations.cpp:270-289 | every link error comes from a module reached by poisoning edges that fails by itself |
| LinkErrors.ErrorIffCause | src/compiler/analysis/Analyzer_Declarations.cpp:211-236 | a module has a link error if and only if some module it reaches by poisoning edges fails by itself |
| LinkErrors.LinkErrorsReachEntry | src/compiler/analysis/Analyzer_Core.cpp:107-119 | an acyclic program fails to compile if and only if a module reached by value imports or re-exports fails by itself, with the first such message |
| LinkedBindings.ErrorsIff | src/compiler/analysis/Analyzer_Declarations.cpp:217-289 | in terms of the export search alone: a statement has no failed binding if and only if each value it imports by name, each default and each re-export is FOUND, or is one that CommonJS interop forgives |
| LinkedBindings.CleanIffAllLink | src/compiler/analysis/Analyzer_Core.cpp:107-119 | an acyclic program compiles without a link error if and only if every file reached by value imports and re-exports parses and every binding of it links |
| LinkedBindings.ImportIsDeclared | src/compiler/analysis/Analyzer_Declarations.cpp:278-289 | in a program that compiles, a value imported by name from a checked ES module has its declaring file in view, and the search reports it |
| LinkedBindings.ReportIs | src/compiler/analysis/Analyzer_Core.cpp:111-116 | what is reported is the entry's own error, with one prefix |
| LinkMessages.ConflictReported | src/compiler/analysis/Analyzer_Declarations.cpp:190-200 | loading `import { x }` through two star exports of modules that both declare `x` is reported as conflicting star exports |
| LinkMessages.CycleReported | src/compiler/analysis/Analyzer_Declarations.cpp:190-200 | two files that re-export a name from each other are reported as a cycle |
| LinkMessages.MissingReported | src/compiler/analysis/Analyzer_Declarations.cpp:190-200 | importing a name that is not there is reported as not provided |
| CyclicLinkErrors.StepFails | src/compiler/analysis/Analyzer_Declarations.cpp:211-220 | a statement keeps the error its module has, and otherwise passes on that of the module it loads, unless it imports types |
| CyclicLinkErrors.LoadShows | src/compiler/analysis/Analyzer_Helpers.cpp:766-939 | whatever a load adds that fails makes the loaded module fail, or is hidden behind an import of types alone |
| CyclicLinkErrors.UnreportedIffHidden | src/compiler/analysis/Analyzer_Core.cpp:107-119 | on any program, cycles included: some loaded module has an error if and only if the entry reports one or a module without an error imports a failing one for its types alone |
| CyclicLinkErrors.ReportedIffSomeFails | src/compiler/analysis/Analyzer_Core.cpp:107-119 | if whatever is imported for its types is also imported for its values, the entry reports an error exactly when some loaded module has one |
| CyclicLinkErrors.CycleHidesFailure | src/compiler/analysis/Analyzer_Declarations.cpp:202-220 | a cycle of four files in which a module fails, value imports lead to it from the entry, and nothing is reported |
| ExportTables.StepInvariant | src/compiler/analysis/Analyzer_Declarations.cpp:335-416 | every statement keeps: direct names bound, star sources copied, resolvable re-exports bound, nothing else in the table |
| RecordTables.RecordHolds | src/compiler/analysis/Analyzer_Declarations.cpp:31-416 | a finished record read off its file: direct exports and both halves of the table are what the statements contribute, no more and no less, star sources are in order, and a later re-export of a name replaces an earlier |
| ExportTables.FoundIsBound | src/compiler/analysis/Analyzer_Declarations.cpp:335-416 | every name that resolves FOUND in a module is in its eager export table |
| ExportTables.BoundIsReached | src/compiler/analysis/Analyzer_Declarations.cpp:335-416 | every name in a table can be traced to a file that declares it |
| ExportTables.LinkedResolution | src/compiler/analysis/Analyzer_Declarations.cpp:129-187 | on a linked acyclic program the search reports the visible declaring file exactly when there is one |
| ExportTables.LoadFinishes | src/compiler/analysis/Analyzer_Core.cpp:207-328 | loading an acyclic program meets the hypotheses of the three rows above |
| FastCheck.FastChecker.CollectLocals | src/compiler/analysis/Analyzer_FastCheck.cpp:60-111 | adds exactly the variables a statement declares, nested functions excluded |
| FastCheck.FastChecker.CapturesEnclosingLocal | src/compiler/analysis/Analyzer_FastCheck.cpp:125-131 | a name captures if some enclosing frame has it and the function itself does not |
| FastCheck.FastChecker.WalkFunctionBody | src/compiler/analysis/Analyzer_FastCheck.cpp:140-161 | the frame stack is pushed, popped and restored around a nested body |
| FastCheck.FastChecker.Walk | src/compiler/analysis/Analyzer_FastCheck.cpp:178-245 | the reports of an expression, in walking order, with the walker's place restored |
| FastCheck.PerformFastCheck | src/compiler/analysis/Analyzer_FastCheck.cpp:455-465 | the reports of a whole program |
| ClosureErasure.FindAccepted | src/compiler/analysis/Analyzer_FastCheck.cpp:125-131 | in accepted code a name leads to the same place with and without enclosing frames |
| ClosureErasure.EvalAgrees | src/compiler/analysis/Analyzer_FastCheck.cpp:140-161 | an accepted expression evaluates alike in both modes, in states that differ by erasure |
| ClosureErasure.AcceptedRunsErased | src/compiler/analysis/Analyzer_FastCheck.cpp:113-224 | if the check reports nothing, the program run with closures erased completes as, and ends in the erasure of, its run with full lexical closures |
| CaptureExact.ReportsExactly | src/compiler/analysis/Analyzer_FastCheck.cpp:113-224 | the reports are, one by one and in the order of the text, the uses that lead to a variable of an enclosing function or to a nested function hiding one, and no others |
| CaptureExact.AcceptedIffNoCapture | src/compiler/analysis/Analyzer_FastCheck.cpp:125-131 | where no nested function has the name of a variable further out, a program is accepted if and only if every use leads to the running function's own frame, a function or a module binding |
| CaptureExact.ShadowingAccepted | src/compiler/analysis/Analyzer_FastCheck.cpp:127 | a local that shadows an enclosing one is not reported |
| CaptureExact.HidingReported | src/compiler/analysis/Analyzer_FastCheck.cpp:216-223 | a nested function that hides an enclosing variable is reported, though it captures nothing |
| CaptureExample.ReportsX | src/compiler/analysis/Analyzer_FastCheck.cpp:216-223 | the check reports the use of an enclosing local |
| CaptureExample.RunsDiffer | src/compiler/analysis/Analyzer_FastCheck.cpp:218-222 | that reported program ends normally with closures and in a reference error without them, whatever the fuel |
| EscapeAnalysis.EscapeVisitor.GetPotentialObjects | src/compiler/analysis/Analyzer_Escape.cpp:24-32 | a `new` is its own object, an identifier has those of the variable, anything else none |
| EscapeAnalysis.EscapeVisitor.MarkAsEscaping | src/compiler/analysis/Analyzer_Escape.cpp:17-22 | flags exactly the potential objects |
| EscapeAnalysis.EscapeVisitor.Visit | src/compiler/analysis/Analyzer_Escape.cpp:94-176 | the visitor's effect on variables and flags, expression by expression |
| EscapeAnalysis.EscapeVisitor.VisitStmt | src/compiler/analysis/Analyzer_Escape.cpp:34-92 | the same for statements |
| EscapeAnalysis.PerformEscapeAnalysis | src/compiler/analysis/Analyzer_Escape.cpp:300-303 | the flagged sites of a body |
| EscapeSoundness.FinalFactsConform | src/compiler/analysis/Analyzer_Escape.cpp:46-53 | where each variable is assigned once the strong updates are exact: the final facts satisfy every step of the visit but the reads of variables assigned only later |
| EscapeSoundness.OnlyFlaggedLeak | src/compiler/analysis/Analyzer_Escape.cpp:87-140 | in every run only objects of flagged sites are returned, thrown, passed, stored or put in a literal, if each variable is assigned once and a second visit of each loop would add nothing |
| EscapeSoundness.OnlyFlaggedLeakIfOrdered | src/compiler/analysis/Analyzer_Escape.cpp:65-102 | by the text alone: it is enough that no loop reads a variable before the loop's own assignment to it; straight-line code needs single assignment only |
| EscapePrecision.FlaggedLeak | src/compiler/analysis/Analyzer_Escape.cpp:24-102 | in straight-line code, reassignments included, every flagged site does leak in any run in which nothing fails |
| EscapePrecision.FlaggedExactly | src/compiler/analysis/Analyzer_Escape.cpp:24-102 | and with single assignment such a run leaks exactly the flagged sites |
| EscapePrecision.KeepersUnflagged | src/compiler/analysis/Analyzer_Escape.cpp:34-176 | where no value is handed on, returned or thrown, nothing is flagged, whatever the branches and loops |
| EscapeExample.NothingFlagged | src/compiler/analysis/Analyzer_Escape.cpp:65-68 | a single-assignment loop body in which nothing is flagged, and whose loop would copy more on a second visit |
| EscapeExample.UnflaggedObjectLeaks | src/compiler/analysis/Analyzer_Escape.cpp:65-102 | a run of it returns the unflagged object |
| EscapeExample.UnstableYetSafe | src/compiler/analysis/Analyzer_Escape.cpp:65-68 | the converse fails: a loop that breaks in its first pass would copy more on a second visit and leaks nothing in any run |
| EscapeExample.UntrackedLeaks | src/compiler/analysis/Analyzer_Escape.cpp:24-32 | an object that passes through another assignment or a conditional is not flagged and is returned |
| EscapeExample.FlaggedInVain | src/compiler/analysis/Analyzer_Escape.cpp:59-63 | with a branch an object may be flagged that no run hands out |
| Framing.FrameMessage | examples/production/chat-server/protocol.ts:34-41 | the frame is the big-endian length and the payload; a length over 32 bits throws |
| Framing.MessageParser.Parse | examples/production/chat-server/protocol.ts:57-88 | the parser's loop takes from its buffer and the new data exactly what `Drain` does |
| Framing.KeepsIncomplete | examples/production/chat-server/protocol.ts:61-74 | the kept bytes are a strict prefix of one acceptable frame, fewer than 4 + 2^20 |
| Framing.ChunksDoNotMatter | examples/production/chat-server/protocol.ts:57-88 | without an oversized length inside, every way of cutting the stream gives the same messages and buffer |
| Framing.ChunkInsensitiveIff | examples/production/chat-server/protocol.ts:64-69 | a stream is insensitive to chunking if and only if no oversized length field occurs before its end |
| Framing.FramedMessagesArrive | examples/production/chat-server/protocol.ts:34-89 | framed messages of at most 2^20 bytes arrive exactly, in order, with an empty buffer at the end |
| ChatProtocol.ParseCommand | examples/production/chat-server/protocol.ts:123-150 | a command is never a chat line again, and starts with a slash after trimming |
| ChatCommands.TrimPadded | examples/production/chat-server/protocol.ts:124 | trimming takes off the white space around a text, all of it and nothing else |
| ChatCommands.RoomCommands | examples/production/chat-server/protocol.ts:141-148 | `/join`, `/leave`, `/list` and `/quit`, with any white space around word and argument, are those commands |
| ChatCommands.PrivateCommand | examples/production/chat-server/protocol.ts:132-138 | `/msg` is split at the first blank into nickname and text |
| ChatCommands.NoCommand | examples/production/chat-server/protocol.ts:123-150 | `/msg` without a text, any other word, and a line without a slash are no commands |
| ChatManager.ClientManager.Broadcast | examples/production/chat-server/room.ts:94-116 | one message to each member in joining order but the excluded one and destroyed sockets |
| ChatManager.ClientManager.JoinRoom | examples/production/chat-server/room.ts:37-49 | membership, the notice to the others, the welcome |
| ChatManager.ClientManager.LeaveRoom | examples/production/chat-server/room.ts:54-67 | removal and the notice to the others |
| ChatManager.ClientManager.RemoveFromAllRooms | examples/production/chat-server/room.ts:174-182 | leaves every room in turn |
| ChatManager.ClientManager.FindRoomOf | examples/production/chat-server/room.ts:187-199 | the first room with that member |
| ChatManager.ClientManager.OnConnection | examples/production/chat-server/client.ts:58-107 | a fresh session with an empty parser of its own and the two greetings; invariant and stored hashes kept |
| ChatManager.ClientManager.OnData | examples/production/chat-server/client.ts:112-120 | the bytes go through the session's parser, and its messages are handled in order; invariant and stored hashes kept, no other session's parser touched |
| ChatManager.ClientManager.OnTimeout | examples/production/chat-server/client.ts:103-106 | a notice, then the socket is ended and the session stays; invariant and stored hashes kept |
| ChatManager.ClientManager.OnMessage | examples/production/chat-server/client.ts:125-158 | routing by authentication and type, `quit` ending the socket; a chat line nests at most one more message |
| ChatManager.ClientManager.OnAuth | examples/production/chat-server/client.ts:163-213 | length check, nickname in use, first registration, password check, login and joining `general` |
| ChatManager.ClientManager.OnChat | examples/production/chat-server/client.ts:218-235 | empty line, command, no room, broadcast |
| ChatManager.ClientManager.OnDisconnect | examples/production/chat-server/client.ts:326-350 | removal from rooms, nickname map, sessions and parsers; invariant and stored hashes kept |
| ChatInvariants.StepKeeps | examples/production/chat-server/client.ts:103-350 | connecting, data, a timeout and disconnecting keep the server invariant |
| ChatInvariants.RunsStayValid | examples/production/chat-server/client.ts:112-350 | over every run each session is in at most one room, members are live and authenticated under their nick, `general` exists, room names are distinct, and every nickname leads to a live session authenticated under it |
| ChatInvariants.MessageAuthenticates | examples/production/chat-server/client.ts:186-199 | a message changes only its own session, and only to a nickname whose password it presents |
| ChatInvariants.StepKeepsHashes | examples/production/chat-server/client.ts:186-195 | a stored password hash never changes and is never removed |
| ChatInvariants.AuthenticationWasPresented | examples/production/chat-server/client.ts:163-199 | in every run a session authenticated as n has itself sent a password whose hash is the one stored for n |
| ChatInvariants.BroadcastOnce | examples/production/chat-server/room.ts:94-116 | each live member but the excluded one is sent a broadcast exactly once, nobody else at all |
| ChatInvariants.ChatLineDelivered | examples/production/chat-server/room.ts:121-130 | a chat line reaches each member of the sender's room with an open socket exactly once, under the sender's nick; nothing else is sent and nothing else changes |
| ChatInvariants.PrivateDelivered | examples/production/chat-server/client.ts:240-262 | a deliverable private message reaches the live session authenticated under the nickname and echoes to its sender, once each, and nobody else |
| ChatInvariants.PrivateRefused | examples/production/chat-server/client.ts:241-254 | one that cannot be delivered is answered to its sender alone, by the usage or by user not found; a user who is not connected is never met |
| ChatRooms.JoinMoves | examples/production/chat-server/client.ts:267-280 | after `join` the session is in the room asked for, behind its other members and under its nickname, and in no other; everybody else is where they were |
| ChatRooms.JoinTells | examples/production/chat-server/room.ts:37-67 | who is told what by a join, in order, and that nothing else is sent |
| ChatRooms.LeaveMoves | examples/production/chat-server/client.ts:285-294 | after `leave` the session is in no room, and everybody else is where they were |
| ChatRooms.LeaveTells | examples/production/chat-server/client.ts:285-294 | the others in the room are told, then the session; outside any room it is an error |
| ChatRooms.DisconnectMoves | examples/production/chat-server/client.ts:326-350 | a disconnected session is in no room, and everybody else is where they were |
| ChatRooms.ListTells | examples/production/chat-server/client.ts:299-312 | `list` answers with a line for every room, between a header and the number of sessions |
| ChatSessions.LoginIff | examples/production/chat-server/client.ts:163-213 | `auth` succeeds exactly with a nickname of 2 to 20 characters that is new or comes with its password, and binds session and nickname to each other |
| ChatSessions.LoginMoves | examples/production/chat-server/client.ts:205-213 | a login enters `general`, behind its members, and moves nobody else; a refused one moves nobody |
| ChatSessions.MessageMoves | examples/production/chat-server/client.ts:125-158 | the rooms after any message: the session moves where it asks to, and everybody else stays |
| ChatSessions.SilentOnceClosed | examples/production/chat-server/client.ts:103-350 | over any run nothing is written to a session once its socket is closed, until it connects again |
| ChatSessions.ClosesSocket | examples/production/chat-server/client.ts:103-154 | quitting, a timeout and disconnecting close the socket, the first two after a last message |
| ChatInvariants.FindableLostIff | examples/production/chat-server/client.ts:341-345 | an event loses an authenticated session's nickname if and only if it disconnects a session that shares its nickname |
| ChatInvariants.SecondLoginShares | examples/production/chat-server/client.ts:172-199 | a second login with the same password does make two sessions share a nickname |
| ChatInvariants.NicknameLost | examples/production/chat-server/client.ts:172-345 | a run of five events from the start after which an authenticated session cannot be found by its nickname |
| ChatBytes.BytesAreMessages | examples/production/chat-server/client.ts:112-120 | over every run on bytes the server is where the run on the messages parsed from them leads, so every result about runs holds of bytes |
| ChatBytes.ByteRunsStayValid | examples/production/chat-server/client.ts:58-350 | the server invariant holds over every run on bytes, whatever the frames and with payloads that do not decode |
| ChatBytes.ReceivesAreFed | examples/production/chat-server/client.ts:112-120 | chunks received one by one are handled as the messages the parser takes from all of them |
| ChatBytes.FramedMessagesHandled | examples/production/chat-server/protocol.ts:34-89 | framed messages of at most 2^20 bytes are handled exactly, in order, however their bytes are cut, and leave the parser empty |
| DoWhileLowering.MayCompleteSound | scripts/dump_ast.js:863-879 | a statement completes, in every world and run, only in the ways that can be read off its text |
| DoWhileLowering.MayCompleteTaken | scripts/dump_ast.js:863-879 | and each of these ways is taken in some run |
| DoWhileLowering.NoJumpOutCompletes | scripts/dump_ast.js:863-879 | a body without jumps to the loop in its text never completes with one, in any world |
| DoWhileLowering.JumplessIsLowerable | scripts/dump_ast.js:863-879 | a body without jumps to the loop in its text meets the condition of the next row |
| DoWhileLowering.LowersThroughout | scripts/dump_ast.js:644-650 | lowering leaves no do-while loop at any depth, and leaves a program without one as it is |
| DoWhileLowering.LowerPreserves | scripts/dump_ast.js:863-879 | lowering everywhere in a program preserves completion, state and divergence, if the body of no do-while can complete with a jump of it |
| DoWhileLowering.LoweringAgreesIff | scripts/dump_ast.js:863-879 | in a given run a do-while under any labels and its lowered form agree if and only if the first pass completes with no jump of the loop and no later pass continues it by a label |
| DoWhileLowering.AlwaysAgreesIff | scripts/dump_ast.js:863-879 | they agree in every world, state and fuel if and only if the body cannot, by its text, complete with a jump of the loop |
| DoWhileLowering.BreakEscapes | scripts/dump_ast.js:866-878 | a first pass that breaks ends the loop originally, and breaks out of what surrounds it when lowered |
| DoWhileLowering.LabelledContinueEscapes | scripts/dump_ast.js:866-878 | a labelled continue ends the loop normally when the test fails, and leaves the label when lowered |
| TypeInference.InferFromTypes | src/compiler/analysis/Analyzer_Expressions_Calls.cpp:1033-1073 | the matching of one parameter type, first match of a name kept |
| TypeInference.InferTypeArguments | src/compiler/analysis/Analyzer_Expressions_Calls.cpp:1026-1096 | the loops of the source compute the inferred argument of every type parameter, with the fallback order default, constraint, any |
| TypeInference.InferTakesFirst | src/compiler/analysis/Analyzer_Expressions_Calls.cpp:1043-1093 | for arguments of any types a type parameter gets the type its name is first met against, tuples meeting an array by their first element; failing that its default, its constraint, any |
| TypeInference.FirstArgumentWins | src/compiler/analysis/Analyzer_Expressions_Calls.cpp:1043 | `f<T>(a: T, b: T)` on a number and a string infers number |
| TypeInference.InferInverts | src/compiler/analysis/Analyzer_Expressions_Calls.cpp:1033-1096 | if the arguments are the parameter types under a substitution, inference returns it on every reachable parameter and the fallback on the others |
| TypeInference.SubstituteAgreesIff | src/compiler/analysis/Analyzer_Helpers.cpp:665-725 | two substitutions give the same type if and only if they agree on what they can replace in it |
| TypeInference.ArgumentsReproducedIff | src/compiler/analysis/Analyzer_Expressions_Calls.cpp:622-645 | substituting the inferred arguments back reproduces the argument types if and only if every parameter out of reach falls back to what it stood for |
| TypeInference.CallTypeIff | src/compiler/analysis/Analyzer_Expressions_Calls.cpp:631-645 | the type of the call is right under the same condition on the result type |
| TypeInference.ClassArgumentsOutOfReach | src/compiler/analysis/Analyzer_Expressions_Calls.cpp:1036-1072 | `f<T>(x: Box<T>): T` on a `Box<number>` infers any |
| AbstractMethods.ClassVisitor.VisitClassDeclaration | src/compiler/analysis/Analyzer_Classes.cpp:56-66 | inheriting the base's set, scanning the members, reporting what is missing |
| AbstractMethods.ClassVisitor.ScanMembers | src/compiler/analysis/Analyzer_Classes.cpp:156-164 | abstract methods inserted, all others erased, in member order |
| AbstractMethods.AbstractIffNearestIs | src/compiler/analysis/Analyzer_Classes.cpp:56-164 | a method is in a class's final set if and only if the nearest class declaring it, among those declared earlier or imported, declares it abstract |
| AbstractMethods.ReportedIffUnimplemented | src/compiler/analysis/Analyzer_Classes.cpp:233-240 | a concrete class is reported if and only if some method's nearest declaration is abstract |
| AbstractMethods.ReportsWhatIsWrong | src/compiler/analysis/Analyzer_Classes.cpp:56-240 | of each class exactly its errors are reported: a base nobody declares, each abstract member of a concrete class, and the set of methods left unimplemented |
| AbstractMethods.RightUnlessLate | src/compiler/analysis/Analyzer_Classes.cpp:56-66 | against the hierarchy itself, whatever the order of the file: the set is right if and only if no base declared later hides an abstract declaration; a name behind a late base is never in it |
| AbstractMethods.RightUnlessMissed | src/compiler/analysis/Analyzer_Classes.cpp:56-164 | a method is in the set if and only if the language asks the class's instances for it, no static method of that name stands nearer, and no late base hides it |
| AbstractMethods.ReportedIffAsked | src/compiler/analysis/Analyzer_Classes.cpp:233-240 | a concrete class is reported if and only if the language asks for some method that is not missed in one of these two ways |
| AbstractMethods.StaticTakenForImplementation | src/compiler/analysis/Analyzer_Classes.cpp:161-164 | a concrete class accepted although its abstract method has no implementation |
| AbstractMethods.LateBaseForgotten | src/compiler/analysis/Analyzer_Classes.cpp:62-65 | the same two classes in the other order: reported in one, accepted in the other, where the base is late |
| LinkClosure.AddDependencies | src/compiler/Driver.cpp:730-740 | the dependencies of one required library are added with their directories |
| LinkClosure.OneRound | src/compiler/Driver.cpp:729-740 | one round over the table in any order; unchanged means closed |
| LinkClosure.CloseOver | src/compiler/Driver.cpp:727-741 | for any table, seeds and order the loop stops with the least closed superset, which is the set of libraries a dependency chain reaches, and a directory for each library added |
| LinkClosure.OrderIrrelevant | src/compiler/Driver.cpp:727-741 | libraries never depend on the order, directories not either if the table gives each library one |
| LinkClosure.DriverTableOneDirEach | src/compiler/Driver.cpp:714-726 | the driver's own table does |
| JobQueue.SortIsStable | examples/production/worker/scheduler.ts:42-45 | the sort orders by time, loses and adds nothing, and keeps ties in order |
| JobQueue.Worker.Add | examples/production/worker/scheduler.ts:38-47 | the job is stored under its id and, if pending, queued and sorted; the queue stays consistent |
| JobQueue.Worker.GetNext | examples/production/worker/scheduler.ts:52-67 | the first ready job is taken out, or none |
| JobQueue.Worker.Finish | examples/production/worker/worker.ts:68-95 | completed, rescheduled with backoff, or failed |
| JobQueue.Worker.Clean | examples/production/worker/scheduler.ts:118-139 | exactly the stale finished jobs are dropped, and counted |
| JobRuns.StepKeepsInv | examples/production/worker/worker.ts:99-112 | every step keeps the queue sorted by time and arrival, holding untouched pending jobs that can be looked up |
| JobRuns.RunsKeepInv | examples/production/worker/scheduler.ts:38-66 | so does every run whose jobs are distinct; no job is taken before one queued earlier for no later |
| JobRuns.WorkerKeepsInv | examples/production/worker/worker.ts:57-112 | in particular after every run of the worker from its start |
| JobRuns.NextIsEarliest | examples/production/worker/scheduler.ts:52-67 | the job taken is the earliest of all, first in first out among ties, and none is taken exactly when none is due |
| JobRuns.QueuedPlusTaken | examples/production/worker/scheduler.ts:38-66 | jobs queued plus jobs taken are the jobs added as pending, each once |
| JobRuns.QueueUntouched | examples/production/worker/scheduler.ts:118-139 | cleanup and finishing a job leave every queued job as it is |
| JobRuns.TakenIsFinal | examples/production/worker/worker.ts:79-95 | a job that was taken and is not being processed never changes again |
| JobRuns.ActiveAlwaysRuns | examples/production/worker/worker.ts:57-59 | over every run the job being processed is marked as running and has a start time |
| JobRuns.ForgottenIff | examples/production/worker/scheduler.ts:118-139 | exactly when cleaning up forgets a job that has ended: by its completion, by its start if it failed for good, and never if it is to be tried again |
| JobRuns.RetryNeverRuns | examples/production/worker/worker.ts:81-87 | a failed job below the retry limit is rescheduled and never run again |
| JobRuns.RetryLost | examples/production/worker/worker.ts:81-87 | a run from the start that does this: a job added, taken and failed stays pending for a time that passes, whatever follows |
| VaultFile.SerializeHeader | examples/production/file-vault/utils.ts:53-93 | the header's bytes field by field, or a range error |
| VaultFile.FieldsOf | examples/production/file-vault/utils.ts:53-93 | where each field of a written header lies |
| VaultFile.HeaderRoundTrip | examples/production/file-vault/utils.ts:95-135 | a written header is read back up to what UTF-8 does to the name, and the ciphertext is cut off exactly when the name read has as many bytes as the name written |
| VaultFile.StoredLengthHonouredIff | examples/production/file-vault/storage.ts:86-93 | in any accepted file, one that ends within the name included, the ciphertext is found where the stored length says if and only if the decoded name has as many bytes as the stored one, or more and nothing follows |
| VaultFile.EncryptFile | examples/production/file-vault/storage.ts:35-64 | it succeeds if and only if the sizes fit their fields, and what it writes decrypts to the name and data given |
| VaultFile.DecryptsIffAuthentic | examples/production/file-vault/storage.ts:81-111 | a file is decrypted exactly if it is long enough, has the magic bytes and carries the HMAC of its ciphertext under the password; otherwise it is rejected, for the first reason that applies |
| VaultFile.DecryptsWhatWasEncrypted | examples/production/file-vault/storage.ts:81-111 | whatever can be encrypted is decrypted to the same name and content |

## Left out

- ResolveReportsVisible: one direction; the other is StarSearchRightIff, which asks that no branch is swallowed. RightThoughNotOpen shows that it cannot be dropped.
- StarSearchRightIff: with renamed re-exports a stray entry and the declaration may lie in the same module, so RightIffOpen asks that they do not.
- ResolveReportsVisible: nothing is claimed when two or more declaring modules are visible beyond what FoundIsReached says of AMBIGUOUS; full agreement with ECMA-262 does not hold because of the leniency described above.
- LinkErrorsReachEntry: which message comes first is stated for acyclic static import graphs only; on cyclic ones UnreportedIffHidden says when there is a report.
- CleanIffAllLink: acyclic programs; on cyclic ones a module in progress is given the benefit of the doubt.
- RecordHolds: acyclic programs; in a cycle a table also depends on how far its source had come.
- FoundIsBound: asks that every locally exported name is bound (otherwise the direct entry has no binding) and that the graph is acyclic.
- LoadModule: files that cannot be opened or parsed at all (the loader returns no module), ambient module declarations and `.d.ts` overlays; declaration files, builtins and JSON are modules with a fixed table.
- VisitStatement: the lookup of a locally exported name in the module's own scope is part of the statement; imports through `require` and `import()` are not statements of the model.
- AcceptedRunsErased: function-scoped names, no default initialisers, no catch or for-in binders, no destructuring, classes, switch or labels, no comparison of function values; assigning to the name of a nested function stops both runs.
- Walk: reports captures only; uses of `arguments` and `eval` are not reported.
- PerformFastCheck: reports captures only.
- AcceptedRunsErased: only captures are modelled among the checks of the subset; the other rejected constructs (`eval`, `await`, `delete`, managed allocation) do not occur in the fragment.
- OnlyFlaggedLeak: conditional and assignment expressions must not themselves flow, and variables are neither captured nor reassigned; the condition on loops is one-way, since a loop that never goes round twice is safe without it (UnstableYetSafe).
- FlaggedLeak: straight-line code only; with branches the analysis also flags what leaks on no path (FlaggedInVain).
- OnlyFlaggedLeakIfOrdered: sufficient only; a loop may read before it assigns and be stable all the same, which OnlyFlaggedLeak covers.
- OnlyFlaggedLeak: property stores go through a variable; parenthesised, cast and shorthand forms, receivers that leak, and class bodies are not in the fragment.
- ByteRunsStayValid: payloads of valid JSON that are no messages, such as `null`, on which `handleMessage` throws, or a number for a nickname, which passes the length check; the decoder of the model yields a message or nothing.
- RunsStayValid: a new connection gets a session id that is not in use; JSON text, keep-alive and console output are not modelled, and messages are records whose missing fields are empty.
- ClientManager: the classes for rooms, the room manager and the sessions are one object here, with a parser object for each session; a socket is open, or ended or destroyed, and what the kernel still delivers after that is left out; server texts are kept by what they say, and password hashing is a function parameter.
- FramedMessagesArrive, FramedMessagesHandled: JSON and UTF-8 are an encoder and a decoder that inverts it.
- LowerPreserves: one-way for whole programs, where a loop that is never reached does no harm; the condition is exact for a single loop (LoweringAgreesIff, AlwaysAgreesIff).
- LoweringAgreesIff, AlwaysAgreesIff: the do-while loops inside the body are fit for lowering themselves; two wrong lowerings could otherwise cancel out.
- LowerPreserves: statements other than blocks, conditionals, loops, labels and jumps are atomic; runs are bounded by fuel, for every amount of it.
- InferTypeArguments: missing (null) types, optional and rest parameters and the constraint check of the call; type parameters have distinct names.
- VisitClassDeclaration: fields, accessors' types, overloads and constructors; classes are declared once, and a name declared twice in a file reuses one record in the source.
- LinkClosure: how the seeds are found, and the library search paths.
- JobRuns: jobs are added once under fresh ids, as the worker does; polling intervals, shutdown and logging are not modelled, and times are integers.
- DecryptsWhatWasEncrypted: compression and ciphers are functions with inverses; the name must survive UTF-8, which a lone surrogate does not; file names and paths are not modelled.
- `getStats`, `listVaultFiles`, message builders, report formatting, and the property and call typing tables of the analyser: long case lists without a deeper law.
- The parser, the code generator, the runtime and its collector are not part of this model.
