/** The worker's job queue: job objects, the two collections that hold them, and the steps that change them. */
module JobQueue {
  import opened Options

  type Ref = nat        // a job object; its fields are in the store
  type Id = string
  datatype Status = Pending | Running | Completed | Failed
  datatype Job = Job(id: Id, status: Status, scheduledAt: int, startedAt: Option<int>, completedAt: Option<int>,
                     retries: nat)
  type Store = map<Ref, Job>

  const MAX_RETRIES := 3
  const BACKOFF := 5000

  /** `jobs`, `pendingJobs` and `activeJob`, with the job objects they refer to. */
  datatype Queue = Queue(store: Store, jobs: map<Id, Ref>, pending: seq<Ref>, active: Option<Ref>)

  const EMPTY := Queue(map[], map[], [], None)

  /** Every reference held is to a job object that exists. */
  ghost predicate Valid(q: Queue) {
    && (forall id :: id in q.jobs ==> q.jobs[id] in q.store)
    && (forall i :: 0 <= i < |q.pending| ==> q.pending[i] in q.store)
    && (q.active.Some? ==> q.active.value in q.store)
  }

  // ---------------------------------------------------------------- the stable sort by time

  function Due(store: Store, r: Ref): int {
    if r in store then store[r].scheduledAt else 0
  }

  /** `r` goes behind everything due no later. */
  function Insert(store: Store, sorted: seq<Ref>, r: Ref): seq<Ref> {
    if sorted == [] || Due(store, sorted[|sorted|-1]) <= Due(store, r) then sorted + [r]
    else Insert(store, sorted[..|sorted|-1], r) + [sorted[|sorted|-1]]
  }

  /** `sort((a, b) => a.scheduledAt - b.scheduledAt)`, which is stable. */
  function Sort(store: Store, s: seq<Ref>): seq<Ref> {
    if s == [] then [] else Insert(store, Sort(store, s[..|s|-1]), s[|s|-1])
  }

  ghost predicate Sorted(store: Store, s: seq<Ref>) {
    forall i, j :: 0 <= i < j < |s| ==> Due(store, s[i]) <= Due(store, s[j])
  }

  /** The elements due at one moment, in order. */
  function DueAt(store: Store, s: seq<Ref>, t: int): seq<Ref> {
    if s == [] then []
    else DueAt(store, s[..|s|-1], t) + (if Due(store, s[|s|-1]) == t then [s[|s|-1]] else [])
  }

  lemma {:induction false} InsertPermutes(store: Store, s: seq<Ref>, r: Ref)
    ensures multiset(Insert(store, s, r)) == multiset(s) + multiset{r}
    decreases |s|
  {
    if s != [] {
      InsertPermutes(store, s[..|s|-1], r);
      assert multiset(s) == multiset(s[..|s|-1]) + multiset{s[|s|-1]} by {
        assert s == s[..|s|-1] + [s[|s|-1]];
      }
    }
  }

  lemma {:induction false} InsertSorts(store: Store, s: seq<Ref>, r: Ref)
    requires Sorted(store, s)
    ensures Sorted(store, Insert(store, s, r))
    decreases |s|
  {
    if s != [] && Due(store, s[|s|-1]) > Due(store, r) {
      var front, last := s[..|s|-1], s[|s|-1];
      var inner := Insert(store, front, r);
      InsertSorts(store, front, r);
      InsertPermutes(store, front, r);
      forall i | 0 <= i < |inner|
        ensures Due(store, inner[i]) <= Due(store, last)
      {
        assert inner[i] in multiset(inner);
        assert inner[i] in front || inner[i] == r;
      }
    } else {
      forall i, j | 0 <= i < j < |s| + 1
        ensures Due(store, (s + [r])[i]) <= Due(store, (s + [r])[j])
      {
        if j == |s| && i < |s| - 1 { assert Due(store, s[i]) <= Due(store, s[|s|-1]); }
      }
    }
  }

  lemma {:induction false} DueAtAppend(store: Store, s: seq<Ref>, r: Ref, t: int)
    ensures DueAt(store, s + [r], t) == DueAt(store, s, t) + (if Due(store, r) == t then [r] else [])
  {
    assert (s + [r])[..|s|] == s;
  }

  lemma {:induction false} InsertKeepsTies(store: Store, s: seq<Ref>, r: Ref, t: int)
    ensures DueAt(store, Insert(store, s, r), t) == DueAt(store, s, t) + DueAt(store, [r], t)
    decreases |s|
  {
    DueAtAppend(store, [], r, t);
    assert [] + [r] == [r];
    if s != [] && Due(store, s[|s|-1]) > Due(store, r) {
      var front, last := s[..|s|-1], s[|s|-1];
      var inner := Insert(store, front, r);
      InsertKeepsTies(store, front, r, t);
      DueAtAppend(store, inner, last, t);
    } else {
      DueAtAppend(store, s, r, t);
    }
  }

  lemma {:induction false} SortSorts(store: Store, s: seq<Ref>)
    ensures Sorted(store, Sort(store, s))
    decreases |s|
  {
    if s != [] {
      SortSorts(store, s[..|s|-1]);
      InsertSorts(store, Sort(store, s[..|s|-1]), s[|s|-1]);
    }
  }

  lemma {:induction false} SortPermutes(store: Store, s: seq<Ref>)
    ensures multiset(Sort(store, s)) == multiset(s)
    decreases |s|
  {
    if s != [] {
      SortPermutes(store, s[..|s|-1]);
      InsertPermutes(store, Sort(store, s[..|s|-1]), s[|s|-1]);
      assert multiset(s) == multiset(s[..|s|-1]) + multiset{s[|s|-1]} by {
        assert s == s[..|s|-1] + [s[|s|-1]];
      }
    }
  }

  lemma {:induction false} SortKeepsTies(store: Store, s: seq<Ref>, t: int)
    ensures DueAt(store, Sort(store, s), t) == DueAt(store, s, t)
    decreases |s|
  {
    if s != [] {
      var front, last := s[..|s|-1], s[|s|-1];
      SortKeepsTies(store, front, t);
      InsertKeepsTies(store, Sort(store, front), last, t);
      DueAtAppend(store, [], last, t);
      assert [] + [last] == [last];
    }
  }

  /** What the library promises of the sort: ordered, nothing lost or added, and ties kept in order. */
  lemma {:induction false} SortIsStable(store: Store, s: seq<Ref>)
    ensures Sorted(store, Sort(store, s))
    ensures multiset(Sort(store, s)) == multiset(s)
    ensures forall t :: DueAt(store, Sort(store, s), t) == DueAt(store, s, t)
  {
    SortSorts(store, s);
    SortPermutes(store, s);
    forall t { SortKeepsTies(store, s, t); }
  }

  lemma {:induction false} InsertLast(store: Store, s: seq<Ref>, r: Ref)
    requires forall i :: 0 <= i < |s| ==> Due(store, s[i]) <= Due(store, r)
    ensures Insert(store, s, r) == s + [r]
  {}

  lemma {:induction false} SortedStays(store: Store, s: seq<Ref>)
    requires Sorted(store, s)
    ensures Sort(store, s) == s
    decreases |s|
  {
    if s != [] {
      var front, last := s[..|s|-1], s[|s|-1];
      SortedStays(store, front);
      InsertLast(store, front, last);
      assert s == front + [last];
    }
  }

  // ---------------------------------------------------------------- the steps

  function AddJob(q: Queue, r: Ref, job: Job): Queue {
    var store := q.store[r := job];
    q.(store := store, jobs := q.jobs[job.id := r],
       pending := if job.status.Pending? then Sort(store, q.pending + [r]) else q.pending)
  }

  predicate Ready(q: Queue, r: Ref, now: int) {
    r in q.store && q.store[r].status.Pending? && q.store[r].scheduledAt <= now
  }

  /** The index of the first ready job, or the length of the list. */
  function FirstReady(q: Queue, s: seq<Ref>, now: int): (i: nat)
    ensures i <= |s|
    ensures forall k :: 0 <= k < i ==> !Ready(q, s[k], now)
    ensures i < |s| ==> Ready(q, s[i], now)
  {
    if s == [] then 0 else if Ready(q, s[0], now) then 0 else 1 + FirstReady(q, s[1..], now)
  }

  /** `getNextJob`: the queue without the job, and the job. */
  function GetNextJob(q: Queue, now: int): (Queue, Option<Ref>) {
    var i := FirstReady(q, q.pending, now);
    if i == |q.pending| then (q, None)
    else (q.(pending := q.pending[..i] + q.pending[i+1..]), Some(q.pending[i]))
  }

  /** `processJob` up to the handler. */
  function StartJob(q: Queue, r: Ref, now: int): Queue
    requires r in q.store
  {
    q.(store := q.store[r := q.store[r].(status := Running, startedAt := Some(now))], active := Some(r))
  }

  function Finished(job: Job, ok: bool, now: int): Job {
    if ok then job.(status := Completed, completedAt := Some(now))
    else if job.retries + 1 < MAX_RETRIES then
      job.(status := Pending, retries := job.retries + 1, scheduledAt := now + (job.retries + 1) * BACKOFF)
    else job.(status := Failed, retries := job.retries + 1)
  }

  /** `processJob` from the handler's end. */
  function FinishJob(q: Queue, ok: bool, now: int): Queue
    requires Valid(q)
  {
    if q.active.None? then q
    else q.(store := q.store[q.active.value := Finished(q.store[q.active.value], ok, now)], active := None)
  }

  /** `completedAt || startedAt || 0`: zero counts as absent. */
  function EndedAt(job: Job): int {
    if job.completedAt.Some? && job.completedAt.value != 0 then job.completedAt.value
    else if job.startedAt.Some? then job.startedAt.value else 0
  }

  predicate Stale(job: Job, cutoff: int) {
    (job.status.Completed? || job.status.Failed?) && EndedAt(job) < cutoff
  }

  function Cleanup(q: Queue, cutoff: int): Queue
    requires Valid(q)
  {
    q.(jobs := map id | id in q.jobs && !Stale(q.store[q.jobs[id]], cutoff) :: q.jobs[id])
  }

  lemma {:induction false} SortValid(q: Queue, r: Ref, job: Job)
    requires Valid(q)
    ensures Valid(AddJob(q, r, job))
  {
    var q' := AddJob(q, r, job);
    if job.status.Pending? {
      SortPermutes(q'.store, q.pending + [r]);
      forall i | 0 <= i < |q'.pending|
        ensures q'.pending[i] in q'.store
      {
        assert q'.pending[i] in multiset(q'.pending);
      }
    }
  }

  // ---------------------------------------------------------------- the same, updated in place

  class Worker {
    var store: Store
    var jobs: map<Id, Ref>
    var pendingJobs: seq<Ref>
    var activeJob: Option<Ref>

    function Now(): Queue
      reads this
    {
      Queue(store, jobs, pendingJobs, activeJob)
    }

    constructor ()
      ensures Now() == EMPTY && Valid(Now())
    {
      store, jobs, pendingJobs, activeJob := map[], map[], [], None;
    }

    method Add(r: Ref, job: Job)
      requires Valid(Now())
      modifies this
      ensures Now() == AddJob(old(Now()), r, job) && Valid(Now())
    {
      SortValid(Now(), r, job);
      store := store[r := job];
      jobs := jobs[job.id := r];
      if job.status == Pending {
        pendingJobs := pendingJobs + [r];
        pendingJobs := Sort(store, pendingJobs);
      }
    }

    method GetNext(now: int) returns (next: Option<Ref>)
      requires Valid(Now())
      modifies this`pendingJobs
      ensures (Now(), next) == GetNextJob(old(Now()), now) && Valid(Now())
      ensures next.Some? ==> next.value in store
    {
      for i := 0 to |pendingJobs|
        invariant pendingJobs == old(pendingJobs)
        invariant FirstReady(Now(), pendingJobs, now) == i + FirstReady(Now(), pendingJobs[i..], now)
      {
        var r := pendingJobs[i];
        if store[r].status == Pending && store[r].scheduledAt <= now {
          pendingJobs := pendingJobs[..i] + pendingJobs[i+1..];
          return Some(r);
        }
      }
      return None;
    }

    method Start(r: Ref, now: int)
      requires Valid(Now()) && r in store
      modifies this`store, this`activeJob
      ensures Now() == StartJob(old(Now()), r, now) && Valid(Now())
    {
      activeJob := Some(r);
      var job := store[r].(status := Running);
      store := store[r := job.(startedAt := Some(now))];
    }

    method Finish(ok: bool, now: int)
      requires Valid(Now()) && activeJob.Some?
      modifies this`store, this`activeJob
      ensures Now() == FinishJob(old(Now()), ok, now) && Valid(Now())
    {
      var job := store[activeJob.value];
      if ok {
        job := job.(status := Completed, completedAt := Some(now));
      } else {
        job := job.(status := Failed, retries := job.retries + 1);
        if job.retries < MAX_RETRIES {
          job := job.(status := Pending, scheduledAt := now + job.retries * BACKOFF);
        }
      }
      store := store[activeJob.value := job];
      activeJob := None;
    }

    method Clean(now: int, maxAge: int) returns (removed: nat)
      requires Valid(Now())
      modifies this`jobs
      ensures Now() == Cleanup(old(Now()), now - maxAge) && Valid(Now())
      ensures removed == |old(jobs)| - |jobs|
    {
      var cutoff := now - maxAge;
      var toRemove := set id | id in jobs && Stale(store[jobs[id]], cutoff);
      removed := 0;
      while toRemove != {}
        invariant toRemove <= jobs.Keys
        invariant forall id :: id in toRemove ==> Stale(store[old(jobs)[id]], cutoff)
        invariant forall id :: id in jobs <==>
                    id in old(jobs) && (Stale(store[old(jobs)[id]], cutoff) ==> id in toRemove)
        invariant forall id :: id in jobs ==> jobs[id] == old(jobs)[id]
        invariant removed == |old(jobs)| - |jobs|
      {
        var id :| id in toRemove;
        toRemove := toRemove - {id};
        assert jobs.Keys == (jobs - {id}).Keys + {id};
        jobs := jobs - {id};
        removed := removed + 1;
      }
    }
  }
}
