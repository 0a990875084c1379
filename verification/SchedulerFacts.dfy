/** What holds of every run of the scheduler: no early start, cancellation, spacing of periodic jobs, and no
    starvation. */
module SchedulerFacts {
  import opened Text
  import opened SchedulerModel

  lemma {:induction false} ReachableInv(steps: seq<Step>)
    ensures Inv(After(INIT, steps))
  {
    InitInv();
    RunKeeps(INIT, steps);
  }

  // ---------------------------------------------------------------- the loop head

  /** Whenever the worker is at its loop head: heap ids are pairwise distinct, so tuple comparison never reaches
      the jobs; every key is that of its job; entries are pending or cancelled; every pending job of the table is
      in the heap; and no job is running. */
  lemma AtLoopHead(steps: seq<Step>)
    requires After(INIT, steps).worker == AtHead
    ensures var s := After(INIT, steps);
      && (forall i, j :: 0 <= i < j < |s.heap| ==> s.heap[i].id != s.heap[j].id)
      && (forall k :: k in s.heap ==> k.id in s.jobs && k == KeyOf(s.jobs, k.id))
      && (forall k :: k in s.heap ==> k.id in s.jobs && s.jobs[k.id].status in {Pending, Cancelled})
      && (forall id :: id in s.table && id in s.jobs && s.jobs[id].status == Pending ==> id in Ids(s.heap))
      && (forall id :: id in s.jobs ==> s.jobs[id].status != Running)
  {
    hide After;
    var s := After(INIT, steps);
    ReachableInv(steps);
    DistinctIds(s);
  }

  // ---------------------------------------------------------------- starts

  lemma NoEarlyStart(steps: seq<Step>, step: Step)
    requires Started(After(INIT, steps), step).Some?
    ensures var (s, id) := (After(INIT, steps), Started(After(INIT, steps), step).value);
      id in s.jobs && s.jobs[id].runAt <= s.now
  {
    hide After;
    ReachableInv(steps);
  }

  /** No step starts a job again once it is cancelled, or finished for good. */
  ghost predicate Over(s: State, id: string) {
    id in s.jobs && s.worker != InJob(id) && s.worker != Finished(id)
    && (s.jobs[id].status == Cancelled || s.jobs[id].status == Completed || s.jobs[id].status == Failed)
  }

  lemma OverStays(s: State, step: Step, id: string)
    requires Inv(s) && Over(s, id)
    ensures Over(Apply(s, step), id) && Started(s, step) != Some(id)
  {
  }

  lemma {:induction false} OverForever(s: State, steps: seq<Step>, step: Step, id: string)
    requires Inv(s) && Over(s, id)
    ensures Over(After(s, steps), id) && Started(After(s, steps), step) != Some(id)
  {
    hide Inv, Apply, Over, Started;
    if steps != [] {
      var last := steps[|steps| - 1];
      OverForever(s, steps[..|steps| - 1], last, id);
      RunKeeps(s, steps[..|steps| - 1]);
      OverStays(After(s, steps[..|steps| - 1]), last, id);
    }
    RunKeeps(s, steps);
    OverStays(After(s, steps), step, id);
  }

  /** A job for which `cancel` returned True never starts afterwards, whatever happens next. */
  lemma CancelledNeverStarts(before: seq<Step>, id: string, after: seq<Step>, step: Step)
    requires CancelSucceeds(After(INIT, before), id)
    ensures Started(After(Apply(After(INIT, before), Cancel(id)), after), step) != Some(id)
  {
    hide After;
    ReachableInv(before);
    var s := After(INIT, before);
    StepKeeps(s, Cancel(id));
    OverForever(Apply(s, Cancel(id)), after, step, id);
  }

  /** A job that is not periodic starts at most once: after it finished it never starts again. */
  lemma OneShotRunsOnce(before: seq<Step>, ok: bool, id: string, after: seq<Step>, step: Step)
    requires var s := After(INIT, before); s.worker == InJob(id) && id in s.jobs && !Periodic(s.jobs[id])
    ensures Started(After(Apply(After(INIT, before), Finish(ok)), after), step) != Some(id)
  {
    hide After;
    ReachableInv(before);
    var s := After(INIT, before);
    StepKeeps(s, Finish(ok));
    OverForever(Apply(s, Finish(ok)), after, step, id);
  }

  /** The clock is past `from`, and a pending run of the job lies at least `interval` after it. */
  ghost predicate Spaced(s: State, id: string, from: real, interval: real) {
    id in s.jobs && s.now >= from && s.jobs[id].interval == Some(interval)
    && (s.jobs[id].status == Pending ==> s.jobs[id].runAt >= from + interval)
  }

  lemma SpacedStays(s: State, step: Step, id: string, from: real, interval: real)
    requires Inv(s) && Spaced(s, id, from, interval)
    ensures Spaced(Apply(s, step), id, from, interval)
    ensures Started(s, step) == Some(id) ==> s.now >= from + interval
  {
  }

  lemma {:induction false} SpacedForever(s: State, steps: seq<Step>, id: string, from: real, interval: real)
    requires Inv(s) && Spaced(s, id, from, interval)
    ensures Spaced(After(s, steps), id, from, interval)
  {
    hide Inv, Apply, Spaced;
    if steps != [] {
      SpacedForever(s, steps[..|steps| - 1], id, from, interval);
      RunKeeps(s, steps[..|steps| - 1]);
      SpacedStays(After(s, steps[..|steps| - 1]), steps[|steps| - 1], id, from, interval);
    }
  }

  /** Every start of a periodic job lies at least its interval after each earlier finish. */
  lemma PeriodicSpacing(before: seq<Step>, ok: bool, id: string, after: seq<Step>, step: Step)
    requires var s := After(INIT, before); s.worker == InJob(id) && id in s.jobs && Periodic(s.jobs[id])
    requires Started(After(Apply(After(INIT, before), Finish(ok)), after), step) == Some(id)
    ensures var s := After(INIT, before);
      After(Apply(s, Finish(ok)), after).now >= s.now + s.jobs[id].interval.value
  {
    hide After;
    ReachableInv(before);
    var s := After(INIT, before);
    var (from, interval) := (s.now, s.jobs[id].interval.value);
    StepKeeps(s, Finish(ok));
    SpacedForever(Apply(s, Finish(ok)), after, id, from, interval);
    RunKeeps(Apply(s, Finish(ok)), after);
    SpacedStays(After(Apply(s, Finish(ok)), after), step, id, from, interval);
  }

  /** A periodic job is armed again whether its function returned or raised. */
  lemma RearmedEitherWay(s: State, id: string, ok: bool)
    requires Inv(s) && s.worker == InJob(id) && Periodic(s.jobs[id])
    ensures var s' := Apply(Apply(Apply(s, Finish(ok)), Rearm), Repush);
      s'.worker == AtHead && id in Ids(s'.heap) && id in s'.jobs && s'.jobs[id].status == Pending
      && s'.jobs[id].runAt == s.now + s.jobs[id].interval.value
  {
    hide Insert;
    StepKeeps(s, Finish(ok));
    StepKeeps(Apply(s, Finish(ok)), Rearm);
    var s2 := Apply(Apply(s, Finish(ok)), Rearm);
    var k := KeyOf(s2.jobs, id);
    assert id !in Ids(s2.heap);
    InsertKeeps(s2.heap, k);
    assert k in Insert(s2.heap, k);
  }

  // ---------------------------------------------------------------- no starvation

  /** The ids in the heap, or on their way into it, whose key is smaller than that of `id`. */
  function Smaller(s: State, id: string): set<string>
    requires id in s.jobs
  {
    set i | i in Ids(s.heap) + s.unpushed && i in s.jobs && KeyLess(KeyOf(s.jobs, i), KeyOf(s.jobs, id))
  }

  function PoppedIds(s: State, step: Step): set<string> { Ids(s.heap) - Ids(Apply(s, step).heap) }

  /** Heap pops along a run. */
  function Pops(s: State, steps: seq<Step>): nat {
    if steps == [] then 0
    else Pops(s, steps[..|steps| - 1]) + |PoppedIds(After(s, steps[..|steps| - 1]), steps[|steps| - 1])|
  }

  /** A pending job in the heap whose time has passed. */
  ghost predicate Overdue(s: State, id: string) {
    id in s.jobs && s.jobs[id].status == Pending && id in Ids(s.heap) && s.jobs[id].runAt < s.now
  }

  /** Everything above an entry that stays has a smaller key. */
  lemma AboveIsSmaller(s: State, n: nat, id: string)
    requires Inv(s) && n <= |s.heap| && id in Ids(s.heap[n..]) && id in s.jobs
    ensures Ids(s.heap) - Ids(s.heap[n..]) <= Smaller(s, id)
  {
    var k :| k in s.heap[n..] && k.id == id;
    var p :| n <= p < |s.heap| && s.heap[p] == k;
    assert forall r :: n <= r < |s.heap| ==> s.heap[n..][r - n] == s.heap[r];
    forall i | i in Ids(s.heap) - Ids(s.heap[n..]) ensures i in Smaller(s, id) {
      var x :| x in s.heap && x.id == i;
      var q :| 0 <= q < |s.heap| && s.heap[q] == x;
      assert KeyLess(s.heap[q], s.heap[p]);
    }
  }

  /** A sweep leaves a pending entry in place. */
  lemma SweepSpares(s: State, id: string) returns (n: nat)
    requires Inv(s) && id in s.jobs && s.jobs[id].status == Pending && id in Ids(s.heap)
    ensures n <= |s.heap| && SweptHeap(s.heap, s.jobs) == s.heap[n..] && id in Ids(s.heap[n..])
  {
    n := SweptSuffix(s.heap, s.jobs);
    var k :| k in s.heap && k.id == id;
    var p :| 0 <= p < |s.heap| && s.heap[p] == k;
    assert s.heap[n..][p - n] == k;
  }

  /** The job stays in the heap, only smaller entries are popped, and none comes to be ahead of it. */
  ghost predicate Closer(s: State, s': State, id: string)
    requires id in s.jobs
  {
    && id in s'.jobs && id in Ids(s'.heap)
    && Ids(s.heap) - Ids(s'.heap) <= Smaller(s, id)
    && Smaller(s', id) <= Smaller(s, id) - (Ids(s.heap) - Ids(s'.heap))
  }

  /** One step of a run with an overdue job: it gets closer to the top, or it is popped itself. */
  lemma OverdueStep(s: State, step: Step, id: string)
    requires Inv(s) && Overdue(s, id)
    ensures var s' := Apply(s, step);
      if id in Ids(s'.heap) then Closer(s, s', id)
      else step == Pop && PoppedIds(s, step) == {id} && s'.worker == Holding(id)
  {
    hide Smaller, Inv, Apply, Ids;
    match step
    case Sweep => OverdueSweep(s, id);
    case Pop => OverduePop(s, id);
    case Push(other) => OverduePush(s, step, id);
    case Repush => OverduePush(s, step, id);
    case _ => OverdueOther(s, step, id);
  }

  lemma OverdueOther(s: State, step: Step, id: string)
    requires Inv(s) && Overdue(s, id)
    requires !step.Sweep? && !step.Pop? && !step.Push? && !step.Repush?
    ensures Apply(s, step).heap == s.heap && Closer(s, Apply(s, step), id)
  {
    if step.Create? || step.Rearm? {
      OverdueNewKey(s, step, id);
    } else {
      assert Apply(s, step).unpushed == s.unpushed;
      assert forall i :: i in s.jobs ==> i in Apply(s, step).jobs && KeyOf(Apply(s, step).jobs, i) == KeyOf(s.jobs, i);
      assert Smaller(Apply(s, step), id) <= Smaller(s, id);
    }
  }

  lemma OverdueNewKey(s: State, step: Step, id: string)
    requires Inv(s) && Overdue(s, id) && (step.Create? || step.Rearm?)
    ensures Apply(s, step).heap == s.heap && Closer(s, Apply(s, step), id)
  {
    var s' := Apply(s, step);
    assert forall i :: i in s'.unpushed - s.unpushed ==> i in s'.jobs && s'.jobs[i].runAt >= s.now;
    assert Smaller(s', id) <= Smaller(s, id);
  }

  lemma OverdueSweep(s: State, id: string)
    requires Inv(s) && Overdue(s, id)
    ensures id in Ids(Apply(s, Sweep).heap) && Closer(s, Apply(s, Sweep), id)
  {
    hide Smaller, Inv, SweptHeap;
    var n := SweepSpares(s, id);
    AboveIsSmaller(s, n, id);
    RestIsSmaller(s, Apply(s, Sweep), n, id);
  }

  lemma RestIsSmaller(s: State, s': State, n: nat, id: string)
    requires Inv(s) && n <= |s.heap| && id in s.jobs
    requires s'.jobs == s.jobs && s'.unpushed == s.unpushed && (s'.heap == s.heap || s'.heap == s.heap[n..])
    ensures Smaller(s', id) <= Smaller(s, id) - (Ids(s.heap) - Ids(s'.heap))
  {
    forall i | i in Smaller(s', id) ensures i in Smaller(s, id) && !(i in Ids(s.heap) && i !in Ids(s'.heap)) {
      if i in Ids(s'.heap) {
        var k :| k in s'.heap && k.id == i;
        assert k in s.heap;
      }
    }
  }

  lemma OverduePop(s: State, id: string)
    requires Inv(s) && Overdue(s, id)
    ensures var s' := Apply(s, Pop);
      if id in Ids(s'.heap) then Closer(s, s', id)
      else PoppedIds(s, Pop) == {id} && s'.worker == Holding(id)
  {
    hide Smaller;
    if s.worker == Due {
      var rest := s.heap[1..];
      if id in Ids(rest) {
        AboveIsSmaller(s, 1, id);
      } else {
        forall i | i in Ids(s.heap) && i != s.heap[0].id ensures i in Ids(rest) {
          var k :| k in s.heap && k.id == i;
          assert k in rest;
        }
        assert s.heap[0] in s.heap && s.heap[0].id == id;
      }
    }
    RestIsSmaller(s, Apply(s, Pop), if |s.heap| > 0 then 1 else 0, id);
  }

  lemma OverduePush(s: State, step: Step, id: string)
    requires Inv(s) && Overdue(s, id) && (step.Push? || step.Repush?)
    ensures id in Ids(Apply(s, step).heap) && Closer(s, Apply(s, step), id)
  {
    var s' := Apply(s, step);
    if s'.heap != s.heap {
      var other := if step.Push? then step.id else s.worker.id;
      var k := KeyOf(s.jobs, other);
      assert other !in Ids(s.heap);
      InsertKeeps(s.heap, k);
      forall i ensures i in Ids(s'.heap) <==> i in Ids(s.heap) || i == other {
        if i in Ids(s.heap) {
          var x :| x in s.heap && x.id == i;
          assert x in s'.heap;
        }
        assert k in s'.heap;
      }
    }
  }

  lemma SubsetSize(a: set<string>, b: set<string>)
    requires a <= b
    ensures |a| <= |b|
  {
    assert b == a + (b - a);
  }

  lemma OverdueCount(s: State, step: Step, id: string)
    requires Inv(s) && Overdue(s, id) && id in Ids(Apply(s, step).heap)
    ensures id in Apply(s, step).jobs
    ensures |PoppedIds(s, step)| + |Smaller(Apply(s, step), id)| <= |Smaller(s, id)|
  {
    hide Apply, Smaller, Inv;
    OverdueStep(s, step, id);
    SubsetSize(Smaller(Apply(s, step), id), Smaller(s, id) - PoppedIds(s, step));
    assert Smaller(s, id) == (Smaller(s, id) - PoppedIds(s, step)) + PoppedIds(s, step);
  }

  /** While an overdue job is pending in the heap, at most as many entries are popped as had smaller keys when it
      became overdue; jobs scheduled or re-armed later never count. */
  lemma {:induction false} NoStarvation(s: State, steps: seq<Step>, id: string)
    requires Inv(s)
    requires forall n :: 0 <= n <= |steps| ==> Overdue(After(s, steps[..n]), id)
    ensures Overdue(s, id) && Overdue(After(s, steps), id)
    ensures Pops(s, steps) + |Smaller(After(s, steps), id)| <= |Smaller(s, id)|
  {
    hide Apply, Smaller, PoppedIds, Inv;
    assert steps[..|steps|] == steps && steps[..0] == [];
    if steps != [] {
      var before := steps[..|steps| - 1];
      assert forall n :: 0 <= n <= |before| ==> before[..n] == steps[..n];
      NoStarvation(s, before, id);
      RunKeeps(s, before);
      OverdueCount(After(s, before), steps[|steps| - 1], id);
    }
  }

  /** And the pop that ends the wait takes the job itself, into the worker's hands. */
  lemma OverdueLeavesByPop(s: State, step: Step, id: string)
    requires Inv(s) && Overdue(s, id) && id !in Ids(Apply(s, step).heap)
    ensures step == Pop && Apply(s, step).worker == Holding(id)
  {
    hide Apply, Inv, Overdue;
    OverdueStep(s, step, id);
  }

  /** The worker never waits while a pending job in the heap is due. */
  lemma NoIdleWhileDue(s: State, id: string)
    requires Inv(s) && s.worker == AtHead
    requires id in s.jobs && s.jobs[id].status == Pending && id in Ids(s.heap) && s.jobs[id].runAt <= s.now
    ensures Apply(s, Sweep).worker == Due
  {
    hide SweptHeap, TableInv, UnpushedInv, WorkerInv;
    var n := SweepSpares(s, id);
    var k :| k in s.heap[n..] && k.id == id;
    var p :| 0 <= p < |s.heap[n..]| && s.heap[n..][p] == k;
    assert p > 0 ==> KeyLess(s.heap[n], s.heap[n + p]);
  }

  lemma {:induction false} IdsCount(heap: seq<Key>)
    requires forall i, j :: 0 <= i < j < |heap| ==> heap[i].id != heap[j].id
    ensures |Ids(heap)| == |heap|
  {
    if heap != [] {
      IdsCount(heap[1..]);
      assert Ids(heap) == {heap[0].id} + Ids(heap[1..]) by {
        forall k | k in heap ensures k.id in {heap[0].id} + Ids(heap[1..]) {
          assert k == heap[0] || k in heap[1..];
        }
        assert forall k :: k in heap[1..] ==> k in heap;
        assert heap[0] in heap;
      }
    }
  }

  lemma DistinctIds(s: State)
    requires Inv(s)
    ensures forall i, j :: 0 <= i < j < |s.heap| ==> s.heap[i].id != s.heap[j].id
  {
    forall i, j | 0 <= i < j < |s.heap| ensures s.heap[i].id != s.heap[j].id {
      assert s.heap[i] in s.heap && s.heap[j] in s.heap;
      KeyOrder(s.heap[i], s.heap[j], s.heap[i]);
    }
  }

  /** `Pops` counts every single heap pop. */
  lemma PoppedCount(s: State, step: Step)
    requires Inv(s) && (step == Sweep || step == Pop)
    ensures |PoppedIds(s, step)| == |s.heap| - |Apply(s, step).heap|
  {
    hide Inv, Apply, Ids;
    DistinctIds(s);
    var n := StepSuffix(s, step);
    SuffixCount(s.heap, n);
  }

  lemma StepSuffix(s: State, step: Step) returns (n: nat)
    requires step == Sweep || step == Pop
    ensures n <= |s.heap| && Apply(s, step).heap == s.heap[n..]
  {
    hide SweptHeap, Ids;
    var m := SweptSuffix(s.heap, s.jobs);
    if Apply(s, step).heap == s.heap {
      n := 0;
    } else {
      n := if step == Sweep then m else 1;
    }
  }

  lemma SuffixCount(heap: seq<Key>, n: nat)
    requires n <= |heap| && forall i, j :: 0 <= i < j < |heap| ==> heap[i].id != heap[j].id
    ensures |Ids(heap) - Ids(heap[n..])| == n
  {
    IdsCount(heap);
    IdsCount(heap[n..]);
    assert forall k :: k in heap[n..] ==> k in heap;
    assert Ids(heap) == Ids(heap[n..]) + (Ids(heap) - Ids(heap[n..]));
  }
}
