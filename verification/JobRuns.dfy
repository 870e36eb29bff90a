/** Runs of the worker: the order jobs are taken in, and what becomes of each of them. */
module JobRuns {
  import opened JobQueue
  import opened Options

  datatype Event =
    | Added(r: Ref, job: Job)
    | Polled(now: int, startedAt: int)
    | Ended(ok: bool, at: int)
    | Cleaned(cutoff: int)

  /** A queue with its history: when each job was queued and for when, and the jobs taken so far. */
  datatype Run = Run(q: Queue, born: map<Ref, nat>, due: map<Ref, int>, taken: seq<Ref>)

  const START := Run(EMPTY, map[], map[], [])

  /** One turn of the event loop; the worker polls only when no job is being processed. */
  function Step(run: Run, e: Event): (run': Run)
    requires Valid(run.q)
    ensures Valid(run'.q)
  {
    var q := run.q;
    match e
    case Added(r, job) =>
      SortValid(q, r, job);
      if job.status.Pending? then
        Run(AddJob(q, r, job), run.born[r := |run.born|], run.due[r := job.scheduledAt], run.taken)
      else run.(q := AddJob(q, r, job))
    case Polled(now, startedAt) =>
      if q.active.Some? then run
      else
        var (q', next) := GetNextJob(q, now);
        if next.None? then run
        else Run(StartJob(q', next.value, startedAt), run.born, run.due, run.taken + [next.value])
    case Ended(ok, now) => run.(q := FinishJob(q, ok, now))
    case Cleaned(cutoff) => run.(q := Cleanup(q, cutoff))
  }

  function After(run: Run, events: seq<Event>): (run': Run)
    requires Valid(run.q)
    ensures Valid(run'.q)
    decreases |events|
  {
    if events == [] then run else After(Step(run, events[0]), events[1..])
  }

  /** A job object is added once, under an id no other job has had. */
  ghost predicate Fresh(run: Run, e: Event) {
    e.Added? ==> e.r !in run.q.store && forall x :: x in run.q.store ==> run.q.store[x].id != e.job.id
  }

  ghost predicate FreshJobs(run: Run, events: seq<Event>)
    requires Valid(run.q)
    decreases |events|
  {
    events != [] ==> Fresh(run, events[0]) && FreshJobs(Step(run, events[0]), events[1..])
  }

  // ---------------------------------------------------------------- the invariant

  /** `a` is due before `b`, or at the same time and was queued first. */
  ghost predicate Earlier(run: Run, a: Ref, b: Ref) {
    && a in run.born && a in run.due && b in run.born && b in run.due
    && (run.due[a] < run.due[b] || (run.due[a] == run.due[b] && run.born[a] < run.born[b]))
  }

  /** A queued job is untouched since it was added, and can be looked up by its id. */
  ghost predicate Waiting(run: Run, r: Ref) {
    && r in run.born && r in run.due && r in run.q.store
    && run.q.store[r].status.Pending? && run.q.store[r].scheduledAt == run.due[r]
    && run.q.store[r].id in run.q.jobs && run.q.jobs[run.q.store[r].id] == r
  }

  ghost predicate History(run: Run) {
    && run.born.Keys == run.due.Keys <= run.q.store.Keys
    && (forall r :: r in run.born ==> run.born[r] < |run.born|)
    && (run.q.active.Some? ==> run.q.active.value in run.taken)
  }

  ghost predicate InOrder(run: Run) {
    && (forall i :: 0 <= i < |run.q.pending| ==> Waiting(run, run.q.pending[i]))
    && (forall i, j :: 0 <= i < j < |run.q.pending| ==> Earlier(run, run.q.pending[i], run.q.pending[j]))
  }

  ghost predicate NoRepeats(s: seq<Ref>) {
    forall i, j :: 0 <= i < j < |s| ==> s[i] != s[j]
  }

  /** Every job queued is either still queued or was taken, and taken once. */
  ghost predicate Conserved(run: Run) {
    && (forall r :: r in run.born <==> r in run.q.pending || r in run.taken)
    && (forall r :: r in run.taken ==> r !in run.q.pending)
    && NoRepeats(run.taken)
  }

  /** `a` was queued before `b`, for no later. */
  ghost predicate Precedes(run: Run, a: Ref, b: Ref) {
    && a in run.born && a in run.due && b in run.born && b in run.due
    && run.born[a] < run.born[b] && run.due[a] <= run.due[b]
  }

  /** No job was taken while one queued earlier for no later was waiting, or is waiting still. */
  ghost predicate FirstComeFirstServed(run: Run) {
    && (forall t, u :: 0 <= t < u < |run.taken| ==> !Precedes(run, run.taken[u], run.taken[t]))
    && (forall t, i :: 0 <= t < |run.taken| && 0 <= i < |run.q.pending| ==>
          !Precedes(run, run.q.pending[i], run.taken[t]))
  }

  ghost predicate Inv(run: Run) {
    Valid(run.q) && History(run) && InOrder(run) && Conserved(run) && FirstComeFirstServed(run)
  }

  // ---------------------------------------------------------------- every step keeps it

  lemma {:induction false} InsertSplits(store: Store, s: seq<Ref>, r: Ref) returns (k: nat)
    requires Sorted(store, s)
    ensures k <= |s| && Insert(store, s, r) == s[..k] + [r] + s[k..]
    ensures forall i :: 0 <= i < k ==> Due(store, s[i]) <= Due(store, r)
    ensures forall i :: k <= i < |s| ==> Due(store, r) < Due(store, s[i])
    decreases |s|
  {
    if s == [] || Due(store, s[|s|-1]) <= Due(store, r) {
      k := |s|;
      assert s[..k] == s && s[k..] == [];
    } else {
      var front, last := s[..|s|-1], s[|s|-1];
      k := InsertSplits(store, front, r);
      assert Insert(store, s, r) == front[..k] + [r] + front[k..] + [last];
      assert front[..k] == s[..k];
      assert front[k..] + [last] == s[k..];
      assert forall i :: 0 <= i < |front| ==> front[i] == s[i];
    }
  }

  /** What adding a pending job does to a run, the job going to place `k`. */
  ghost predicate AddedAt(run: Run, run': Run, r: Ref, job: Job, k: nat) {
    && Fresh(run, Added(r, job)) && job.status.Pending?
    && run'.q.store == run.q.store[r := job] && run'.q.jobs == run.q.jobs[job.id := r] && run'.q.active == run.q.active
    && run'.born == run.born[r := |run.born|] && run'.due == run.due[r := job.scheduledAt] && run'.taken == run.taken
    && k <= |run.q.pending| && run'.q.pending == run.q.pending[..k] + [r] + run.q.pending[k..]
    && (forall i :: 0 <= i < |run.q.pending| ==> run.q.pending[i] != r && run.q.pending[i] in run.due)
    && (forall i :: 0 <= i < k ==> run.due[run.q.pending[i]] <= job.scheduledAt)
    && (forall i :: k <= i < |run.q.pending| ==> job.scheduledAt < run.due[run.q.pending[i]])
  }

  lemma {:induction false} DueTimesSorted(run: Run, store: Store)
    requires InOrder(run) && forall r :: r in run.q.store ==> r in store && store[r] == run.q.store[r]
    ensures forall i :: 0 <= i < |run.q.pending| ==>
              run.q.pending[i] in run.due && Due(store, run.q.pending[i]) == run.due[run.q.pending[i]]
    ensures Sorted(store, run.q.pending)
  {
    var s := run.q.pending;
    forall i | 0 <= i < |s|
      ensures s[i] in run.due && Due(store, s[i]) == run.due[s[i]]
    {
      assert Waiting(run, s[i]);
    }
    forall i, j | 0 <= i < j < |s|
      ensures Due(store, s[i]) <= Due(store, s[j])
    {
      assert Earlier(run, s[i], s[j]);
    }
  }

  lemma {:induction false} AddInserts(run: Run, r: Ref, job: Job) returns (k: nat)
    requires Inv(run) && Fresh(run, Added(r, job)) && job.status.Pending?
    ensures AddedAt(run, Step(run, Added(r, job)), r, job, k)
  {
    var s, store := run.q.pending, run.q.store[r := job];
    DueTimesSorted(run, store);
    SortedStays(store, s);
    assert (s + [r])[..|s|] == s;
    k := InsertSplits(store, s, r);
  }

  lemma {:induction false} AddKeepsInv(run: Run, r: Ref, job: Job)
    requires Inv(run) && Fresh(run, Added(r, job)) && job.status.Pending?
    ensures Inv(Step(run, Added(r, job)))
  {
    var k := AddInserts(run, r, job);
    var run' := Step(run, Added(r, job));
    AddKeepsOrder(run, run', r, job, k);
    AddKeepsHistory(run, run', r, job, k);
  }

  lemma {:induction false} AddKeepsHistory(run: Run, run': Run, r: Ref, job: Job, k: nat)
    requires AddedAt(run, run', r, job, k) && History(run) && Conserved(run) && FirstComeFirstServed(run)
    ensures History(run') && Conserved(run') && FirstComeFirstServed(run')
  {
    assert r !in run.born;
    assert forall t :: 0 <= t < |run.taken| ==> run.taken[t] in run.taken;
    assert run'.born.Keys == run.born.Keys + {r};
    AddConserves(run, run', r, job, k);
    AddKeepsFirst(run, run', r, job, k);
  }

  lemma {:induction false} AddConserves(run: Run, run': Run, r: Ref, job: Job, k: nat)
    requires AddedAt(run, run', r, job, k) && Conserved(run) && r !in run.born
    ensures Conserved(run')
  {
    var front, back := run.q.pending[..k], run.q.pending[k..];
    assert run.q.pending == front + back;
    assert forall x :: x in run'.q.pending <==> x in front || x == r || x in back;
  }

  lemma {:induction false} AddKeepsFirst(run: Run, run': Run, r: Ref, job: Job, k: nat)
    requires AddedAt(run, run', r, job, k) && History(run) && FirstComeFirstServed(run)
    requires forall t :: 0 <= t < |run.taken| ==> run.taken[t] in run.born
    requires r !in run.born
    ensures FirstComeFirstServed(run')
  {
    assert forall a, t :: 0 <= t < |run.taken| && a != r && Precedes(run', a, run.taken[t]) ==>
             Precedes(run, a, run.taken[t]);
    assert forall t :: 0 <= t < |run.taken| ==> !Precedes(run', r, run.taken[t]);
    forall i | 0 <= i < |run'.q.pending|
      ensures run'.q.pending[i] == r || run'.q.pending[i] in run.q.pending
    {}
  }

  lemma {:induction false} AddKeepsOrder(run: Run, run': Run, r: Ref, job: Job, k: nat)
    requires AddedAt(run, run', r, job, k) && History(run) && InOrder(run)
    ensures InOrder(run')
  {
    var s, s' := run.q.pending, run'.q.pending;
    forall i | 0 <= i < |s|
      ensures Waiting(run', s[i])
      ensures if i < k then Earlier(run', s[i], r) else Earlier(run', r, s[i])
    {
      assert Waiting(run, s[i]);
    }
    assert Waiting(run', r);
    forall i, j | 0 <= i < j < |s|
      ensures Earlier(run', s[i], s[j])
    {
      assert Earlier(run, s[i], s[j]);
    }
    OrderAround(run', s, r, k);
  }

  lemma {:induction false} OrderAround(run: Run, s: seq<Ref>, r: Ref, k: nat)
    requires k <= |s| && run.q.pending == s[..k] + [r] + s[k..] && Waiting(run, r)
    requires forall i :: 0 <= i < |s| ==> Waiting(run, s[i])
    requires forall i :: 0 <= i < |s| ==> if i < k then Earlier(run, s[i], r) else Earlier(run, r, s[i])
    requires forall i, j :: 0 <= i < j < |s| ==> Earlier(run, s[i], s[j])
    ensures InOrder(run)
  {
    var s' := run.q.pending;
    forall i | 0 <= i < |s'|
      ensures s'[i] == if i < k then s[i] else if i == k then r else s[i-1]
    {}
  }

  /** The job taken is the earliest of all, and there is none to take exactly when that one is not due. */
  lemma {:induction false} NextIsEarliest(run: Run, now: int)
    requires Inv(run)
    ensures var (q', next) := GetNextJob(run.q, now);
            && (next.None? <==> forall i :: 0 <= i < |run.q.pending| ==> run.due[run.q.pending[i]] > now)
            && (next.None? ==> q' == run.q)
            && (next.Some? ==>
                  && run.q.pending != [] && next.value == run.q.pending[0] && run.due[next.value] <= now
                  && q' == run.q.(pending := run.q.pending[1..])
                  && forall i :: 1 <= i < |run.q.pending| ==> Earlier(run, next.value, run.q.pending[i]))
  {
    var s := run.q.pending;
    PendingReady(run, now);
    HeadOrNone(run.q, s, now);
    assert s != [] ==> s[..0] + s[1..] == s[1..];
  }

  lemma {:induction false} PendingReady(run: Run, now: int)
    requires InOrder(run)
    ensures forall i :: 0 <= i < |run.q.pending| ==> run.q.pending[i] in run.due
    ensures forall i :: 0 <= i < |run.q.pending| ==>
              (Ready(run.q, run.q.pending[i], now) <==> run.due[run.q.pending[i]] <= now)
    ensures forall i :: 0 <= i < |run.q.pending| ==> run.due[run.q.pending[0]] <= run.due[run.q.pending[i]]
  {
    var s := run.q.pending;
    forall i | 0 <= i < |s|
      ensures s[i] in run.due && s[0] in run.due
      ensures Ready(run.q, s[i], now) <==> run.due[s[i]] <= now
      ensures run.due[s[0]] <= run.due[s[i]]
    {
      assert Waiting(run, s[i]) && Waiting(run, s[0]);
      assert i > 0 ==> Earlier(run, s[0], s[i]);
    }
  }

  lemma {:induction false} HeadOrNone(q: Queue, s: seq<Ref>, now: int)
    requires forall i :: 0 <= i < |s| && Ready(q, s[i], now) ==> Ready(q, s[0], now)
    ensures FirstReady(q, s, now) == (if s != [] && Ready(q, s[0], now) then 0 else |s|)
  {
    var k := FirstReady(q, s, now);
  }

  lemma {:induction false} PollKeepsInv(run: Run, now: int, startedAt: int)
    requires Inv(run)
    ensures Inv(Step(run, Polled(now, startedAt)))
  {
    NextIsEarliest(run, now);
    var (q', next) := GetNextJob(run.q, now);
    if run.q.active.None? && next.Some? {
      var r := next.value;
      var run' := Step(run, Polled(now, startedAt));
      TakeKeepsOrder(run, run', r);
      TakeConserves(run, run', r);
      TakenInOrder(run, run', r);
    }
  }

  lemma {:induction false} TakeKeepsOrder(run: Run, run': Run, r: Ref)
    requires InOrder(run) && run.q.pending != [] && run.q.pending[0] == r
    requires run'.born == run.born && run'.due == run.due
    requires run'.q.pending == run.q.pending[1..] && run'.q.jobs == run.q.jobs
    requires r in run'.q.store && run'.q.store == run.q.store[r := run'.q.store[r]]
    ensures InOrder(run')
  {
    forall i | 0 <= i < |run'.q.pending|
      ensures Waiting(run', run'.q.pending[i])
    {
      assert Waiting(run, run.q.pending[i + 1]) && Earlier(run, r, run.q.pending[i + 1]);
    }
    forall i, j | 0 <= i < j < |run'.q.pending|
      ensures Earlier(run', run'.q.pending[i], run'.q.pending[j])
    {
      assert Earlier(run, run.q.pending[i + 1], run.q.pending[j + 1]);
    }
  }

  lemma {:induction false} TakeConserves(run: Run, run': Run, r: Ref)
    requires Inv(run) && run.q.pending != [] && run.q.pending[0] == r
    requires run'.born == run.born && run'.q.pending == run.q.pending[1..] && run'.taken == run.taken + [r]
    ensures Conserved(run')
  {
    var s := run.q.pending;
    forall i | 1 <= i < |s|
      ensures s[i] != r
    {
      assert Earlier(run, s[0], s[i]);
    }
    assert r in s;
    assert forall x :: x in s <==> x == r || x in s[1..] by {
      assert s == [r] + s[1..];
    }
  }

  lemma {:induction false} TakenInOrder(run: Run, run': Run, r: Ref)
    requires InOrder(run) && FirstComeFirstServed(run) && run.q.pending != [] && run.q.pending[0] == r
    requires run'.taken == run.taken + [r] && run'.born == run.born && run'.due == run.due
    requires run'.q.pending == run.q.pending[1..]
    ensures FirstComeFirstServed(run')
  {
    assert forall a, b :: Precedes(run', a, b) <==> Precedes(run, a, b);
    forall i | 0 <= i < |run'.q.pending|
      ensures !Precedes(run, run'.q.pending[i], r)
    {
      assert Earlier(run, run.q.pending[0], run.q.pending[i + 1]);
    }
  }

  lemma {:induction false} StepKeepsInv(run: Run, e: Event)
    requires Inv(run) && Fresh(run, e)
    ensures Inv(Step(run, e))
  {
    match e
    case Added(r, job) =>
      if job.status.Pending? {
        AddKeepsInv(run, r, job);
      } else {
        QueueUntouched(run, e);
      }
    case Polled(now, startedAt) => PollKeepsInv(run, now, startedAt);
    case Ended(_, _) => QueueUntouched(run, e);
    case Cleaned(_) => QueueUntouched(run, e);
  }

  /** Finishing, cleaning up and adding a job that is not pending leave every queued job as it is. */
  lemma {:induction false} QueueUntouched(run: Run, e: Event)
    requires Inv(run) && Fresh(run, e) && !e.Polled? && !(e.Added? && e.job.status.Pending?)
    ensures var run' := Step(run, e);
            && Inv(run') && run'.q.pending == run.q.pending
            && (forall i :: 0 <= i < |run.q.pending| ==>
                  Waiting(run', run.q.pending[i]) && run'.q.store[run.q.pending[i]] == run.q.store[run.q.pending[i]])
  {
    var run' := Step(run, e);
    forall i | 0 <= i < |run.q.pending|
      ensures Waiting(run', run.q.pending[i]) && run'.q.store[run.q.pending[i]] == run.q.store[run.q.pending[i]]
    {
      StaysWaiting(run, e, run.q.pending[i]);
    }
    forall i, j | 0 <= i < j < |run.q.pending|
      ensures Earlier(run', run.q.pending[i], run.q.pending[j])
    {
      assert Earlier(run, run.q.pending[i], run.q.pending[j]);
    }
    assert forall a, b :: Precedes(run', a, b) <==> Precedes(run, a, b);
  }

  lemma {:induction false} StaysWaiting(run: Run, e: Event, r: Ref)
    requires Valid(run.q) && History(run) && Conserved(run) && Fresh(run, e)
    requires !e.Polled? && !(e.Added? && e.job.status.Pending?)
    requires r in run.q.pending && Waiting(run, r)
    ensures var run' := Step(run, e); Waiting(run', r) && run'.q.store[r] == run.q.store[r]
  {
    if e.Cleaned? { assert !Stale(run.q.store[r], e.cutoff); }
  }

  /** The invariant holds after every run whose jobs are distinct. */
  lemma {:induction false} RunsKeepInv(run: Run, events: seq<Event>)
    requires Inv(run) && FreshJobs(run, events)
    ensures Inv(After(run, events))
    decreases |events|
  {
    if events != [] {
      StepKeepsInv(run, events[0]);
      RunsKeepInv(Step(run, events[0]), events[1..]);
    }
  }

  /** In particular after every run of the worker from its start. */
  lemma {:induction false} WorkerKeepsInv(events: seq<Event>)
    requires FreshJobs(START, events)
    ensures Inv(After(START, events))
  {
    RunsKeepInv(START, events);
  }

  lemma {:induction false} NoRepeatsMultiset(s: seq<Ref>, elements: set<Ref>)
    requires NoRepeats(s) && forall r :: r in elements <==> r in s
    ensures multiset(s) == multiset(elements)
    decreases |s|
  {
    if s != [] {
      var front, last := s[..|s|-1], s[|s|-1];
      assert s == front + [last];
      NoRepeatsMultiset(front, elements - {last});
      assert elements == elements - {last} + {last};
    }
  }

  /** Jobs still queued plus jobs taken are the jobs added as pending, each of them once. */
  lemma {:induction false} QueuedPlusTaken(run: Run)
    requires Inv(run)
    ensures multiset(run.q.pending + run.taken) == multiset(run.born.Keys)
  {
    var s := run.q.pending + run.taken;
    forall i, j | 0 <= i < j < |run.q.pending|
      ensures run.q.pending[i] != run.q.pending[j]
    {
      assert Earlier(run, run.q.pending[i], run.q.pending[j]);
    }
    assert NoRepeats(s);
    NoRepeatsMultiset(s, run.born.Keys);
  }

  // ---------------------------------------------------------------- retries

  lemma {:induction false} TakenStaysPut(run: Run, e: Event, r: Ref)
    requires Inv(run) && Fresh(run, e)
    requires r in run.taken && run.q.active != Some(r)
    ensures var run' := Step(run, e);
            && r in run.q.store && r in run'.q.store && run'.q.store[r] == run.q.store[r]
            && r in run'.taken && run'.q.active != Some(r)
  {
    assert r in run.born;
    if e.Polled? { NextIsEarliest(run, e.now); }
  }

  /** A job that was taken and is not being processed never changes again, whatever follows. */
  lemma {:induction false} TakenIsFinal(run: Run, events: seq<Event>, r: Ref)
    requires Inv(run) && FreshJobs(run, events)
    requires r in run.taken && run.q.active != Some(r)
    ensures var run' := After(run, events);
            && r in run.q.store && r in run'.q.store && run'.q.store[r] == run.q.store[r]
            && r !in run'.q.pending && run'.q.active != Some(r)
    decreases |events|
  {
    assert r in run.born;
    if events != [] {
      StepKeepsInv(run, events[0]);
      TakenStaysPut(run, events[0], r);
      TakenIsFinal(Step(run, events[0]), events[1..], r);
    }
  }

  /** A failed job below the retry limit is marked pending and rescheduled, and is never run again. */
  lemma {:induction false} RetryNeverRuns(run: Run, at: int, events: seq<Event>)
    requires Inv(run) && run.q.active.Some? && run.q.store[run.q.active.value].retries + 1 < MAX_RETRIES
    requires FreshJobs(Step(run, Ended(false, at)), events)
    ensures var r := run.q.active.value;
            var retries := run.q.store[r].retries + 1;
            var run' := After(Step(run, Ended(false, at)), events);
            && r in run'.q.store
            && run'.q.store[r].status.Pending?
            && run'.q.store[r].retries == retries
            && run'.q.store[r].scheduledAt == at + retries * BACKOFF
            && r !in run'.q.pending && run'.q.active != Some(r)
  {
    StepKeepsInv(run, Ended(false, at));
    assert run.q.active.value in run.taken;
    TakenIsFinal(Step(run, Ended(false, at)), events, run.q.active.value);
  }

  /** A run that loses a job: it is added, taken and fails once. */
  function FailingRun(job: Job, now: int, startedAt: int, at: int): seq<Event> {
    [Added(0, job), Polled(now, startedAt), Ended(false, at)]
  }

  lemma {:induction false} TakenFirst(job: Job, now: int, startedAt: int)
    requires job.status.Pending? && job.scheduledAt <= now
    ensures var run := Step(Step(START, Added(0, job)), Polled(now, startedAt));
            && run.q.active == Some(0) && 0 in run.q.store && run.q.store[0].retries == job.retries
            && run.q.pending == []
  {
    var run := Step(START, Added(0, job));
    assert [] + [0] == [0] && [0][..0] == [] && [0][1..] == [];
    assert Sort(run.q.store, []) == [];
    assert run.q.pending == [0];
    assert Ready(run.q, 0, now) && FirstReady(run.q, [0], now) == 0;
    assert run.q.pending[..0] + run.q.pending[0+1..] == [];
    assert GetNextJob(run.q, now) == (run.q.(pending := []), Some(0));
  }

  /** Whatever follows that run, the job stays marked pending for a time that passes, and is never run. */
  lemma {:induction false} RetryLost(job: Job, now: int, startedAt: int, at: int, events: seq<Event>)
    requires job.status.Pending? && job.scheduledAt <= now && job.retries == 0
    requires FreshJobs(After(START, FailingRun(job, now, startedAt, at)), events)
    ensures var run := After(After(START, FailingRun(job, now, startedAt, at)), events);
            && 0 in run.q.store && run.q.store[0].status.Pending? && run.q.store[0].scheduledAt == at + BACKOFF
            && 0 !in run.q.pending && run.q.active != Some(0)
  {
    var e := FailingRun(job, now, startedAt, at);
    var run1 := Step(START, e[0]);
    var run2 := Step(run1, e[1]);
    TakenFirst(job, now, startedAt);
    assert e[1..] == [e[1], e[2]] && e[1..][1..] == [e[2]] && e[1..][1..][1..] == [];
    var run3 := Step(run2, e[2]);
    assert After(run3, []) == run3 && After(run2, [e[2]]) == run3 && After(run1, e[1..]) == run3;
    assert After(START, e) == run3;
    StepKeepsInv(START, e[0]);
    StepKeepsInv(run1, e[1]);
    RetryNeverRuns(run2, at, events);
  }

  // ---------------------------------------------------------------- the job being processed, and cleaning up

  /** The job being processed is marked as running, with the time it was started. */
  ghost predicate ActiveRuns(run: Run) {
    run.q.active.Some? ==>
      var r := run.q.active.value;
      r in run.q.store && run.q.store[r].status.Running? && run.q.store[r].startedAt.Some?
  }

  lemma {:induction false} StepKeepsActive(run: Run, e: Event)
    requires Inv(run) && Fresh(run, e) && ActiveRuns(run)
    ensures ActiveRuns(Step(run, e))
  {
    if e.Polled? { NextIsEarliest(run, e.now); }
  }

  lemma {:induction false} ActiveAlwaysRuns(run: Run, events: seq<Event>)
    requires Inv(run) && FreshJobs(run, events) && ActiveRuns(run)
    ensures ActiveRuns(After(run, events))
    decreases |events|
  {
    if events != [] {
      StepKeepsInv(run, events[0]);
      StepKeepsActive(run, events[0]);
      ActiveAlwaysRuns(Step(run, events[0]), events[1..]);
    }
  }

  /** How the job being processed can end: done, to be tried again, or failed for good. */
  lemma {:induction false} EndsInOneWay(run: Run, ok: bool, at: int)
    requires Inv(run) && run.q.active.Some?
    ensures var r := run.q.active.value;
            var job, ended := run.q.store[r], Step(run, Ended(ok, at));
            && ended.q.active == None && r in ended.q.store
            && (ended.q.store[r].status.Completed? <==> ok)
            && (ended.q.store[r].status.Pending? <==> !ok && job.retries < 2)
            && (ended.q.store[r].status.Failed? <==> !ok && job.retries >= 2)
            && ended.q.store[r].retries == (if ok then job.retries else job.retries + 1)
  {}

  /** Whether cleaning up with this cutoff, after the job being processed has ended, forgets it: a completed job is kept
      from the time it was completed, one that failed for good only from the time it was started, and one to be tried
      again for ever. */
  lemma {:induction false} ForgottenIff(run: Run, ok: bool, at: int, cutoff: int, started: int)
    requires Inv(run) && run.q.active.Some? && at != 0
    requires var job := run.q.store[run.q.active.value];
             && job.startedAt == Some(started) && job.completedAt.None?
             && job.id in run.q.jobs && run.q.jobs[job.id] == run.q.active.value
    ensures var job := run.q.store[run.q.active.value];
            job.id !in Step(Step(run, Ended(ok, at)), Cleaned(cutoff)).q.jobs <==>
            if ok then at < cutoff else job.retries >= 2 && started < cutoff
  {
    var ended := Step(run, Ended(ok, at));
    assert Step(ended, Cleaned(cutoff)).q.jobs.Keys
        == set id | id in ended.q.jobs && !Stale(ended.q.store[ended.q.jobs[id]], cutoff);
  }

  /** Any other event, and cleaning up for any other job, leaves the table of jobs as it is but for jobs added. */
  lemma {:induction false} OthersKept(run: Run, e: Event, id: Id)
    requires Inv(run) && Fresh(run, e) && id in run.q.jobs
    requires e.Cleaned? ==> var job := run.q.store[run.q.jobs[id]]; job.status.Pending? || job.status.Running?
    ensures !(e.Added? && e.job.id == id) ==>
              id in Step(run, e).q.jobs && Step(run, e).q.jobs[id] == run.q.jobs[id]
  {}

  /** A job added can be looked up by its id, pending or not. */
  lemma {:induction false} AddedIsFound(run: Run, r: Ref, job: Job)
    requires Valid(run.q)
    ensures var q := Step(run, Added(r, job)).q;
            && r in q.store && q.store[r] == job && job.id in q.jobs && q.jobs[job.id] == r
            && (r in q.pending <==> job.status.Pending? || r in run.q.pending)
            && forall x :: x in run.q.store && x != r ==> q.store[x] == run.q.store[x]
  {
    var store := run.q.store[r := job];
    SortPermutes(store, run.q.pending + [r]);
    assert job.status.Pending? ==>
      (r in Step(run, Added(r, job)).q.pending <==> r in multiset(Step(run, Added(r, job)).q.pending));
  }
}
