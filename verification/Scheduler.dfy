/** The Scheduler class (buster/kernel/scheduler.py): each method is one atomic step of the model, and its fields
    always represent the model state. */
module Scheduler {
  import opened Text
  import opened SchedulerModel

  class Job {
    const id: string
    const name: string
    const interval: Option<real>
    const priority: int
    var runAt: real
    var status: Status

    constructor (id: string, name: string, runAt: real, interval: Option<real>, priority: int)
      ensures this.id == id && this.name == name && Info() == JobInfo(runAt, interval, priority, Pending)
    {
      this.id, this.name, this.interval, this.priority := id, name, interval, priority;
      this.runAt, this.status := runAt, Pending;
    }

    function Info(): JobInfo
      reads this
    {
      JobInfo(runAt, interval, priority, status)
    }

    function HeapKey(): Key
      reads this
    {
      Key(runAt, priority, id)
    }
  }

  /** A heap tuple: its key and its job. */
  datatype Entry = Entry(key: Key, job: Job)

  function Keys(heap: seq<Entry>): seq<Key> { seq(|heap|, i requires 0 <= i < |heap| => heap[i].key) }

  function WithEntry(heap: seq<Entry>, e: Entry, p: nat): seq<Entry>
    requires p <= |heap|
  {
    heap[..p] + [e] + heap[p..]
  }

  lemma EntryPlaced(heap: seq<Entry>, e: Entry)
    ensures Keys(WithEntry(heap, e, Place(Keys(heap), e.key))) == Insert(Keys(heap), e.key)
    ensures forall x :: x in WithEntry(heap, e, Place(Keys(heap), e.key)) ==> x in heap || x == e
  {
    hide Place;
  }

  /** Entries and table hold the jobs of their ids. */
  ghost predicate Named(heap: seq<Entry>, jobs: map<string, Job>, all: map<string, Job>) {
    && (forall e :: e in heap ==> e.key.id in all && e.job == all[e.key.id])
    && (forall id :: id in jobs ==> id in all && jobs[id] == all[id])
  }

  lemma NamedRest(heap: seq<Entry>, jobs: map<string, Job>, all: map<string, Job>, id: string)
    requires Named(heap, jobs, all) && heap != []
    ensures Named(heap[1..], jobs, all) && Named(heap[1..], jobs - {id}, all)
    ensures heap[0].key.id in all && heap[0].job == all[heap[0].key.id]
  {
    assert heap[0] in heap;
  }

  lemma NamedMore(heap: seq<Entry>, jobs: map<string, Job>, all: map<string, Job>, job: Job)
    requires Named(heap, jobs, all) && job.id !in all
    ensures Named(heap, jobs, all[job.id := job])
  {
  }

  class Scheduler {
    var heap: seq<Entry>
    var jobs: map<string, Job>
    ghost var all: map<string, Job>
    ghost var model: State

    /** The fields represent `model`; `all` are the jobs ever created. */
    ghost predicate Valid()
      reads this, all.Values
    {
      && Inv(model)
      && JobsMatch()
      && Keys(heap) == model.heap
      && jobs.Keys == model.table
      && Named(heap, jobs, all)
    }

    ghost predicate JobsMatch()
      reads this, all.Values
    {
      all.Keys == model.jobs.Keys && forall id :: id in all ==> all[id].id == id && all[id].Info() == model.jobs[id]
    }

    constructor ()
      ensures Valid() && model == INIT && all == map[]
    {
      heap, jobs, all, model := [], map[], map[], INIT;
      InitInv();
    }

    /** The job a call of `schedule` makes from the clock, before it is pushed. */
    method Create(id: string, name: string, now: real, delay: real, every: Option<real>, priority: int)
      returns (job: Job)
      requires Valid() && now >= model.now && id !in model.jobs
      modifies this
      ensures Valid() && fresh(job) && all == old(all)[id := job] && job.id == id
      ensures model == Apply(Apply(old(model), Tick(now)), SchedulerModel.Create(id, delay, every, priority))
    {
      hide Inv, Apply, Insert, WithEntry, SweptHeap, Ids, KeyLess, Named;
      CreatedState(model, now, id, delay, every, priority);
      job := new Job(id, name, now + (if delay > 0.0 then delay else 0.0), every, priority);
      NamedMore(heap, jobs, all, job);
      model := Apply(Apply(model, Tick(now)), SchedulerModel.Create(id, delay, every, priority));
      all := all[id := job];
    }

    method Push(job: Job)
      requires Valid() && job.id in all && all[job.id] == job && job.id in model.unpushed && model.worker != Rearmed(job.id)
      modifies this
      ensures Valid() && all == old(all) && model == Apply(old(model), SchedulerModel.Push(job.id))
    {
      hide Inv, Insert, SweptHeap, Ids, WithEntry;
      StepKeeps(model, SchedulerModel.Push(job.id));
      var entry := Entry(job.HeapKey(), job);
      EntryPlaced(heap, entry);
      heap := WithEntry(heap, entry, Place(Keys(heap), entry.key));
      jobs := jobs[job.id := job];
      model := Apply(model, SchedulerModel.Push(job.id));
    }

    /** `schedule` with nothing in between: a new job is created from the clock and pushed. */
    method Schedule(id: string, name: string, now: real, delay: real, every: Option<real>, priority: int)
      returns (job: Job)
      requires Valid() && now >= model.now && id !in model.jobs
      modifies this
      ensures Valid() && fresh(job) && all == old(all)[id := job] && job.id == id
      ensures var created := Apply(Apply(old(model), Tick(now)), SchedulerModel.Create(id, delay, every, priority));
        model == Apply(created, SchedulerModel.Push(id))
    {
      hide Inv, Insert, WithEntry, SweptHeap, Ids, KeyLess, Named;
      NotRearmed(model, id);
      job := Create(id, name, now, delay, every, priority);
      Push(job);
    }

    method Cancel(jobId: string) returns (cancelled: bool)
      requires Valid()
      modifies this, all.Values
      ensures Valid() && all == old(all)
      ensures cancelled == CancelSucceeds(old(model), jobId)
      ensures model == Apply(old(model), SchedulerModel.Cancel(jobId))
    {
      hide Inv, Insert, SweptHeap, Ids;
      if jobId !in jobs || jobs[jobId].status != Pending { return false; }
      StepKeeps(model, SchedulerModel.Cancel(jobId));
      SetStatus(jobs[jobId], Cancelled, Apply(model, SchedulerModel.Cancel(jobId)));
      return true;
    }

    /** Writes one job's status, taking the model to a state that differs in that and in the worker only. */
    method SetStatus(job: Job, status: Status, ghost to: State)
      requires Valid() && job.id in all && all[job.id] == job && Inv(to)
      requires to == model.(jobs := WithStatus(model.jobs, job.id, status), worker := to.worker)
      modifies this`model, job`status
      ensures Valid() && model == to
    {
      hide Inv, Apply, Insert, SweptHeap, Ids, Named;
      job.status := status;
      model := to;
    }

    method Remove(jobId: string) returns (found: bool)
      requires Valid()
      modifies this
      ensures Valid() && all == old(all) && heap == old(heap)
      ensures found == (jobId in old(model).table)
      ensures model == Apply(old(model), SchedulerModel.Remove(jobId))
    {
      hide Inv, Insert, SweptHeap, Ids;
      StepKeeps(model, SchedulerModel.Remove(jobId));
      found := jobId in jobs;
      jobs := jobs - {jobId};
      model := Apply(model, SchedulerModel.Remove(jobId));
    }

    /** The inner loop of the worker's loop head: drop entries from the top until one is pending. */
    method DropExpired()
      requires Valid()
      modifies this`heap, this`jobs
      ensures Keys(heap) == SweptHeap(model.heap, model.jobs)
      ensures jobs.Keys == model.table - (Ids(model.heap) - Ids(Keys(heap))) && Named(heap, jobs, all)
    {
      hide Inv, Apply, Insert, WithEntry, SweptHeap, Ids, KeyLess, Named;
      ghost var n := 0;
      assert Keys(heap) == model.heap[0..];
      while heap != [] && heap[0].job.status != Pending
        invariant JobsMatch() && n <= |model.heap| && Keys(heap) == model.heap[n..]
        invariant SweptHeap(model.heap, model.jobs) == SweptHeap(Keys(heap), model.jobs)
        invariant Ids(Keys(heap)) <= Ids(model.heap) && Named(heap, jobs, all)
        invariant jobs.Keys == model.table - (Ids(model.heap) - Ids(Keys(heap)))
        decreases |heap|
      {
        var expired := heap[0].job;
        NamedRest(heap, jobs, all, expired.id);
        assert Keys(heap)[0] == model.heap[n] && Keys(heap)[1..] == Keys(heap[1..]) == model.heap[n + 1..];
        DropTop(model, n);
        SweptNext(Keys(heap), model.jobs);
        jobs := jobs - {expired.id};
        heap := heap[1..];
        n := n + 1;
      }
      if heap != [] {
        NamedRest(heap, jobs, all, heap[0].key.id);
        assert Keys(heap)[0] == heap[0].key;
      }
      SweptDone(Keys(heap), model.jobs);
    }

    /** The locked part of the worker's loop head: drop entries that are not pending, then how long to wait. */
    method SweepAndCheck(now: real) returns (due: Option<real>)
      requires Valid() && now >= model.now && model.worker == AtHead
      modifies this
      ensures Valid() && all == old(all)
      ensures model == Apply(Apply(old(model), Tick(now)), Sweep)
      ensures due == if model.heap == [] then None else Some(model.heap[0].runAt - now)
      ensures model.worker == if due.Some? && due.value <= 0.0 then Due else AtHead
    {
      hide Inv, SweptHeap, Ids;
      ghost var s := Apply(model, Tick(now));
      StepKeeps(model, Tick(now));
      StepKeeps(s, Sweep);
      DropExpired();
      model := Apply(s, Sweep);
      due := if heap == [] then None else Some(heap[0].key.runAt - now);
    }

    /** `heappop` under the lock; the worker then holds the job. */
    method PopDue() returns (job: Job?)
      requires Valid() && model.worker == Due
      modifies this
      ensures Valid() && all == old(all) && model == Apply(old(model), Pop)
      ensures job != null && job.id in all && all[job.id] == job && model.worker == Holding(job.id)
    {
      hide Inv, Insert, SweptHeap, Ids;
      DueHeap(model);
      StepKeeps(model, Pop);
      assert |Keys(heap)| == |heap|;
      if heap == [] { return null; }
      job := heap[0].job;
      assert heap[0] in heap && Keys(heap)[0] == heap[0].key && Keys(heap)[1..] == Keys(heap[1..]);
      heap := heap[1..];
      model := Apply(model, Pop);
    }

    /** Mark a popped job running if it is still pending. */
    method Begin(job: Job) returns (started: bool)
      requires Valid() && model.worker == Holding(job.id) && job.id in all && all[job.id] == job
      modifies this, job
      ensures Valid() && all == old(all) && model == Apply(old(model), Check)
      ensures started == (Started(old(model), Check) == Some(job.id))
    {
      hide Inv, Insert, SweptHeap, Ids;
      StepKeeps(model, Check);
      started := job.status == Pending;
      if started {
        SetStatus(job, Running, Apply(model, Check));
      } else {
        model := Apply(model, Check);
      }
    }

    /** The function returned (`ok`) or raised. */
    method Finish(job: Job, ok: bool)
      requires Valid() && model.worker == InJob(job.id) && job.id in all && all[job.id] == job
      modifies this, job
      ensures Valid() && all == old(all) && model == Apply(old(model), SchedulerModel.Finish(ok))
    {
      hide Inv, Insert, SweptHeap, Ids;
      StepKeeps(model, SchedulerModel.Finish(ok));
      SetStatus(job, if ok then Completed else Failed, Apply(model, SchedulerModel.Finish(ok)));
    }

    method Rearm(job: Job, now: real)
      requires Valid() && now >= model.now && model.worker == Finished(job.id) && job.id in all && all[job.id] == job
      modifies this, job
      ensures Valid() && all == old(all)
      ensures model == Apply(Apply(old(model), Tick(now)), SchedulerModel.Rearm) && model.worker == Rearmed(job.id)
    {
      hide Inv, Insert, SweptHeap, Ids, Named;
      FinishedPeriodic(model);
      ghost var s := Apply(model, Tick(now));
      StepKeeps(model, Tick(now));
      StepKeeps(s, SchedulerModel.Rearm);
      job.runAt := now + job.interval.value;
      job.status := Pending;
      model := Apply(s, SchedulerModel.Rearm);
    }

    method Repush(job: Job)
      requires Valid() && model.worker == Rearmed(job.id) && job.id in all && all[job.id] == job
      modifies this
      ensures Valid() && all == old(all) && model == Apply(old(model), SchedulerModel.Repush)
    {
      hide Inv, Insert, SweptHeap, Ids, WithEntry;
      StepKeeps(model, SchedulerModel.Repush);
      var entry := Entry(job.HeapKey(), job);
      EntryPlaced(heap, entry);
      heap := WithEntry(heap, entry, Place(Keys(heap), entry.key));
      jobs := jobs[job.id := job];
      model := Apply(model, SchedulerModel.Repush);
    }
  }

  lemma CreatedState(s: State, now: real, id: string, delay: real, every: Option<real>, priority: int)
    requires Inv(s) && now >= s.now && id !in s.jobs
    ensures var t := Apply(Apply(s, Tick(now)), SchedulerModel.Create(id, delay, every, priority));
      && Inv(t) && t.heap == s.heap && t.table == s.table
      && t.jobs == s.jobs[id := JobInfo(now + (if delay > 0.0 then delay else 0.0), every, priority, Pending)]
  {
    hide Inv;
    StepKeeps(s, Tick(now));
    StepKeeps(Apply(s, Tick(now)), SchedulerModel.Create(id, delay, every, priority));
  }

  lemma NotRearmed(s: State, id: string)
    requires Inv(s) && id !in s.jobs
    ensures s.worker != Rearmed(id)
  {
  }

  lemma DropTop(s: State, n: nat)
    requires Inv(s) && n < |s.heap|
    ensures Ids(s.heap[n..]) - {s.heap[n].id} == Ids(s.heap[n + 1..]) && s.heap[n].id in Ids(s.heap[n..])
  {
    var (top, rest) := (s.heap[n], s.heap[n + 1..]);
    assert s.heap[n..][0] == top && s.heap[n..][1..] == rest;
    forall k | k in rest ensures k.id != top.id && k in s.heap[n..] {
      assert k in s.heap && top in s.heap;
      var i :| 0 <= i < |rest| && rest[i] == k;
      assert KeyLess(s.heap[n], s.heap[n + 1 + i]);
      KeyOrder(top, k, top);
    }
    forall k | k in s.heap[n..] && k.id != top.id ensures k in rest {
      var i :| 0 <= i < |s.heap[n..]| && s.heap[n..][i] == k;
      assert i > 0 && rest[i - 1] == k;
    }
  }

  lemma SweptNext(heap: seq<Key>, jobs: map<string, JobInfo>)
    requires heap != [] && heap[0].id in jobs && jobs[heap[0].id].status != Pending
    ensures SweptHeap(heap, jobs) == SweptHeap(heap[1..], jobs)
  {
  }

  lemma DueHeap(s: State)
    requires Inv(s) && s.worker == Due
    ensures s.heap != []
  {
  }

  lemma FinishedPeriodic(s: State)
    requires Inv(s) && s.worker.Finished?
    ensures s.worker.id in s.jobs && s.jobs[s.worker.id].interval.Some?
  {
  }

  lemma SweptDone(heap: seq<Key>, jobs: map<string, JobInfo>)
    ensures (heap == [] || heap[0].id !in jobs || jobs[heap[0].id].status == Pending) ==> SweptHeap(heap, jobs) == heap
  {
  }
}
