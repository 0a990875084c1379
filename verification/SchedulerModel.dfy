/** The scheduler (buster/kernel/scheduler.py) as a state machine: any number of callers schedule, cancel and
    remove jobs while one worker sweeps, pops, runs and re-arms them. */
module SchedulerModel {
  import opened Text

  datatype Status = Pending | Running | Completed | Cancelled | Failed

  /** What heap tuples are ordered by; the Job after it is never compared when ids differ. */
  datatype Key = Key(runAt: real, priority: int, id: string)

  predicate KeyLess(a: Key, b: Key) {
    a.runAt < b.runAt
    || (a.runAt == b.runAt && (a.priority < b.priority || (a.priority == b.priority && TextLess(a.id, b.id))))
  }

  lemma KeyOrder(a: Key, b: Key, c: Key)
    ensures !(KeyLess(a, b) && KeyLess(b, a))
    ensures KeyLess(a, b) || KeyLess(b, a) || a == b
    ensures KeyLess(a, b) && KeyLess(b, c) ==> KeyLess(a, c)
  {
    CompareTextLaws(a.id, b.id);
    if CompareText(a.id, b.id) <= 0 && CompareText(b.id, c.id) <= 0 { CompareTextTransitive(a.id, b.id, c.id); }
  }

  datatype JobInfo = JobInfo(runAt: real, interval: Option<real>, priority: int, status: Status)

  predicate Periodic(j: JobInfo) { j.interval.Some? && j.interval.value > 0.0 }

  /** Where the worker is: at its loop head, about to pop, holding a popped job, in its function, past it with a
      periodic job, or with a re-armed job not pushed yet. */
  datatype Worker = AtHead | Due | Holding(id: string) | InJob(id: string) | Finished(id: string) | Rearmed(id: string)

  /** `jobs` are all jobs ever created, `table` the ids in `_jobs`, `unpushed` the ids whose key was computed from
      the clock but whose push has not happened yet. */
  datatype State = State(now: real, heap: seq<Key>, table: set<string>, jobs: map<string, JobInfo>,
                         unpushed: set<string>, worker: Worker)

  const INIT := State(0.0, [], {}, map[], {}, AtHead)

  datatype Step =
    | Tick(to: real)
    | Create(id: string, delay: real, every: Option<real>, priority: int)
    | Push(id: string)
    | Cancel(id: string)
    | Remove(id: string)
    | Sweep
    | Pop
    | Check
    | Finish(ok: bool)
    | Rearm
    | Repush

  function KeyOf(jobs: map<string, JobInfo>, id: string): Key
    requires id in jobs
  {
    Key(jobs[id].runAt, jobs[id].priority, id)
  }

  function WithStatus(jobs: map<string, JobInfo>, id: string, status: Status): map<string, JobInfo>
    requires id in jobs
  {
    jobs[id := jobs[id].(status := status)]
  }

  // ---------------------------------------------------------------- heapq by its contract

  /** How many entries are popped before one of key `k`. */
  function Place(heap: seq<Key>, k: Key): (p: nat)
    ensures p <= |heap|
  {
    if heap == [] || KeyLess(k, heap[0]) then 0 else 1 + Place(heap[1..], k)
  }

  /** `heappush`: the heap is kept as its entries in order. */
  function Insert(heap: seq<Key>, k: Key): seq<Key> { heap[..Place(heap, k)] + [k] + heap[Place(heap, k)..] }

  lemma InsertFirst(heap: seq<Key>, k: Key)
    ensures Insert(heap, k) ==
              if heap == [] || KeyLess(k, heap[0]) then [k] + heap else [heap[0]] + Insert(heap[1..], k)
  {
    hide KeyLess;
    if heap != [] && !KeyLess(k, heap[0]) {
      var p := Place(heap[1..], k);
      assert heap[..p + 1] == [heap[0]] + heap[1..][..p] && heap[p + 1..] == heap[1..][p..];
    }
  }

  ghost predicate Sorted(heap: seq<Key>) { forall i, j :: 0 <= i < j < |heap| ==> KeyLess(heap[i], heap[j]) }

  function Ids(heap: seq<Key>): set<string> { set k | k in heap :: k.id }

  lemma {:induction false} InsertKeeps(heap: seq<Key>, k: Key)
    requires Sorted(heap) && k.id !in Ids(heap)
    ensures Sorted(Insert(heap, k))
    ensures forall x :: x in Insert(heap, k) <==> x in heap || x == k
    ensures |Insert(heap, k)| == |heap| + 1
    ensures heap != [] ==> Insert(heap, k)[0].runAt <= heap[0].runAt
  {
    hide Insert;
    InsertFirst(heap, k);
    if heap != [] {
      KeyOrder(k, heap[0], k);
      if KeyLess(k, heap[0]) {
        forall i | 0 <= i < |heap| ensures KeyLess(k, heap[i]) { KeyOrder(k, heap[0], heap[i]); }
      } else {
        assert k != heap[0];
        InsertKeeps(heap[1..], k);
        var rest := Insert(heap[1..], k);
        forall i | 0 <= i < |rest| ensures KeyLess(heap[0], rest[i]) { assert rest[i] in heap[1..] || rest[i] == k; }
      }
    }
  }

  // ---------------------------------------------------------------- steps

  /** Drops entries that are not pending from the top of the heap. */
  function SweptHeap(heap: seq<Key>, jobs: map<string, JobInfo>): seq<Key> {
    if heap != [] && heap[0].id in jobs && jobs[heap[0].id].status != Pending then SweptHeap(heap[1..], jobs) else heap
  }

  predicate CancelSucceeds(s: State, id: string) {
    id in s.table && id in s.jobs && s.jobs[id].status == Pending
  }

  /** The id the worker starts in this step, if any. */
  function Started(s: State, step: Step): Option<string> {
    if step == Check && s.worker.Holding? && s.worker.id in s.jobs && s.jobs[s.worker.id].status == Pending
    then Some(s.worker.id) else None
  }

  /** One step; a step that cannot happen leaves the state unchanged. Ids are fresh (uuid4). */
  function Apply(s: State, step: Step): State {
    match step
    case Tick(to) => if to >= s.now then s.(now := to) else s
    case Create(id, delay, every, priority) =>
      if id in s.jobs then s
      else
        s.(jobs := s.jobs[id := JobInfo(s.now + (if delay > 0.0 then delay else 0.0), every, priority, Pending)],
           unpushed := s.unpushed + {id})
    case Push(id) =>
      if id in s.unpushed && id in s.jobs && s.worker != Rearmed(id) then Pushed(s, id) else s
    case Cancel(id) =>
      if CancelSucceeds(s, id) then s.(jobs := WithStatus(s.jobs, id, Cancelled)) else s
    case Remove(id) => s.(table := s.table - {id})
    case Sweep =>
      if s.worker != AtHead then s
      else
        var heap := SweptHeap(s.heap, s.jobs);
        s.(heap := heap, table := s.table - (Ids(s.heap) - Ids(heap)),
           worker := if heap != [] && heap[0].runAt <= s.now then Due else AtHead)
    case Pop =>
      if s.worker != Due then s
      else if s.heap == [] then s.(worker := AtHead)
      else s.(heap := s.heap[1..], worker := Holding(s.heap[0].id))
    case Check =>
      if !s.worker.Holding? then s
      else if Started(s, step).Some? then
        s.(jobs := WithStatus(s.jobs, s.worker.id, Running), worker := InJob(s.worker.id))
      else s.(worker := AtHead)
    case Finish(ok) =>
      if !s.worker.InJob? || s.worker.id !in s.jobs then s
      else
        s.(jobs := WithStatus(s.jobs, s.worker.id, if ok then Completed else Failed),
           worker := if Periodic(s.jobs[s.worker.id]) then Finished(s.worker.id) else AtHead)
    case Rearm =>
      if !s.worker.Finished? || s.worker.id !in s.jobs || s.jobs[s.worker.id].interval.None? then s
      else
        var id := s.worker.id;
        s.(jobs := s.jobs[id := s.jobs[id].(runAt := s.now + s.jobs[id].interval.value, status := Pending)],
           unpushed := s.unpushed + {id}, worker := Rearmed(id))
    case Repush =>
      if !s.worker.Rearmed? || s.worker.id !in s.jobs then s
      else Pushed(s, s.worker.id).(worker := AtHead)
  }

  function Pushed(s: State, id: string): State
    requires id in s.jobs
  {
    s.(heap := Insert(s.heap, KeyOf(s.jobs, id)), table := s.table + {id}, unpushed := s.unpushed - {id})
  }

  function After(s: State, steps: seq<Step>): State {
    if steps == [] then s else Apply(After(s, steps[..|steps| - 1]), steps[|steps| - 1])
  }

  // ---------------------------------------------------------------- the invariant

  predicate Waiting(status: Status) { status == Pending || status == Cancelled }

  ghost predicate HeapInv(s: State) {
    && Sorted(s.heap)
    && (forall k :: k in s.heap ==>
          k.id in s.jobs && k == KeyOf(s.jobs, k.id) && Waiting(s.jobs[k.id].status) && k.id !in s.unpushed)
  }

  ghost predicate UnpushedInv(s: State) {
    forall id :: id in s.unpushed ==>
      id in s.jobs && Waiting(s.jobs[id].status) && (s.worker != Rearmed(id) ==> id !in s.table)
  }

  ghost predicate WorkerInv(s: State) {
    match s.worker
    case AtHead => true
    case Due => s.heap != [] && s.heap[0].runAt <= s.now
    case Holding(id) => Held(s, id) && id !in s.unpushed && Waiting(s.jobs[id].status) && s.jobs[id].runAt <= s.now
    case InJob(id) => Held(s, id) && id !in s.unpushed && s.jobs[id].status == Running
    case Finished(id) =>
      Held(s, id) && id !in s.unpushed && s.jobs[id].status in {Completed, Failed} && Periodic(s.jobs[id])
    case Rearmed(id) => Held(s, id) && id in s.unpushed
  }

  ghost predicate Held(s: State, id: string) { id in s.jobs && id !in Ids(s.heap) }

  ghost predicate TableInv(s: State) {
    && (forall id :: id in s.table ==> id in s.jobs)
    && (forall id :: id in s.table && s.jobs[id].status == Pending ==>
          id in Ids(s.heap) || s.worker == Holding(id) || s.worker == Rearmed(id))
    && (forall id :: id in s.jobs && s.jobs[id].status == Running ==> s.worker == InJob(id))
  }

  ghost predicate Inv(s: State) { HeapInv(s) && UnpushedInv(s) && WorkerInv(s) && TableInv(s) }

  lemma {:induction false} SweptSuffix(heap: seq<Key>, jobs: map<string, JobInfo>) returns (n: nat)
    ensures n <= |heap| && SweptHeap(heap, jobs) == heap[n..]
    ensures forall i :: 0 <= i < n ==> heap[i].id in jobs && jobs[heap[i].id].status != Pending
    ensures n < |heap| && heap[n].id in jobs ==> jobs[heap[n].id].status == Pending
  {
    if heap != [] && heap[0].id in jobs && jobs[heap[0].id].status != Pending {
      n := SweptSuffix(heap[1..], jobs);
      n := n + 1;
    } else {
      n := 0;
    }
  }

  lemma SweepKeeps(s: State)
    requires Inv(s)
    ensures Inv(Apply(s, Sweep))
  {
    var n := SweptSuffix(s.heap, s.jobs);
    var s' := Apply(s, Sweep);
    if s.worker == AtHead {
      assert s'.heap == s.heap[n..];
      forall id | id in s'.table && s.jobs[id].status == Pending ensures id in Ids(s'.heap) {
        assert id in Ids(s.heap);
      }
    }
  }

  lemma PushKeeps(s: State, id: string)
    requires Inv(s) && id in s.unpushed
    ensures Inv(if s.worker == Rearmed(id) then Pushed(s, id).(worker := AtHead) else Pushed(s, id))
  {
    assert id !in Ids(s.heap);
    var k := KeyOf(s.jobs, id);
    InsertKeeps(s.heap, k);
    var heap := Insert(s.heap, k);
    assert forall i :: i in Ids(heap) <==> i in Ids(s.heap) || i == id by {
      assert k in heap;
      forall i | i in Ids(s.heap) ensures i in Ids(heap) {
        var x :| x in s.heap && x.id == i;
        assert x in heap;
      }
    }
  }

  lemma RepushKeeps(s: State)
    requires Inv(s)
    ensures Inv(Apply(s, Repush))
  {
    hide HeapInv, TableInv, UnpushedInv;
    if s.worker.Rearmed? { PushKeeps(s, s.worker.id); }
  }

  lemma PopKeeps(s: State)
    requires Inv(s)
    ensures Inv(Apply(s, Pop))
  {
    if s.worker == Due {
      var (top, heap) := (s.heap[0], s.heap[1..]);
      forall k | k in heap ensures k in s.heap && k.id != top.id {
        KeyOrder(top, k, top);
      }
      forall id | id in Ids(s.heap) && id != top.id ensures id in Ids(heap) {
        var k :| k in s.heap && k.id == id;
        assert k in heap;
      }
    }
  }

  lemma RunningKeeps(s: State, step: Step)
    requires Inv(s) && (step.Check? || step.Finish? || step.Rearm?)
    ensures Inv(Apply(s, step))
  {
  }

  lemma CallerKeeps(s: State, step: Step)
    requires Inv(s) && (step.Tick? || step.Create? || step.Cancel? || step.Remove?)
    ensures Inv(Apply(s, step))
  {
  }

  /** Every step keeps the invariant. */
  lemma StepKeeps(s: State, step: Step)
    requires Inv(s)
    ensures Inv(Apply(s, step))
  {
    hide HeapInv, TableInv, UnpushedInv, WorkerInv;
    match step
    case Sweep => SweepKeeps(s);
    case Pop => PopKeeps(s);
    case Push(id) => if id in s.unpushed { PushKeeps(s, id); }
    case Repush => RepushKeeps(s);
    case Tick(_) => CallerKeeps(s, step);
    case Create(_, _, _, _) => CallerKeeps(s, step);
    case Cancel(_) => CallerKeeps(s, step);
    case Remove(_) => CallerKeeps(s, step);
    case _ => RunningKeeps(s, step);
  }

  lemma {:induction false} RunKeeps(s: State, steps: seq<Step>)
    requires Inv(s)
    ensures Inv(After(s, steps))
  {
    hide Inv, Apply;
    if steps != [] {
      RunKeeps(s, steps[..|steps| - 1]);
      StepKeeps(After(s, steps[..|steps| - 1]), steps[|steps| - 1]);
    }
  }

  lemma InitInv()
    ensures Inv(INIT)
  {
  }
}
