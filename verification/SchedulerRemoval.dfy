/** What `remove` does not do (buster/kernel/scheduler.py:103-105): it takes a job out of the table only, so the job
    still runs. */
module SchedulerRemoval {
  import opened Text
  import opened SchedulerModel
  import opened SchedulerFacts

  /** Alike but for one id in the table. */
  predicate AlikeBut(s: State, t: State, id: string) {
    t == s.(table := t.table) && s.table - {id} == t.table - {id}
  }

  lemma StepAlike(s: State, t: State, step: Step, id: string)
    requires AlikeBut(s, t, id) && step != Cancel(id)
    ensures AlikeBut(Apply(s, step), Apply(t, step), id) && Started(s, step) == Started(t, step)
  {
    hide Insert, SweptHeap, Ids;
    match step
    case Cancel(other) => assert other in s.table - {id} <==> other in t.table - {id};
    case Remove(other) => TablesAlike(s.table, t.table, {other}, {}, id);
    case Push(other) => TablesAlike(s.table, t.table, {}, {other}, id);
    case Repush => if s.worker.Rearmed? { TablesAlike(s.table, t.table, {}, {s.worker.id}, id); }
    case Sweep => TablesAlike(s.table, t.table, Ids(s.heap) - Ids(SweptHeap(s.heap, s.jobs)), {}, id);
    case _ =>
  }

  lemma TablesAlike(a: set<string>, b: set<string>, less: set<string>, more: set<string>, id: string)
    requires a - {id} == b - {id}
    ensures (a - less) - {id} == (b - less) - {id} && (a + more) - {id} == (b + more) - {id}
  {
    forall x ensures x in (a - less) - {id} <==> x in (b - less) - {id} { assert x in a - {id} <==> x in b - {id}; }
    forall x ensures x in (a + more) - {id} <==> x in (b + more) - {id} { assert x in a - {id} <==> x in b - {id}; }
  }

  /** As long as nobody cancels the job, a run goes on after its removal as it does without: the same heap, jobs and
      worker, and the same starts. */
  lemma {:induction false} RemovalUnseen(s: State, steps: seq<Step>, step: Step, id: string)
    requires step != Cancel(id) && forall n :: 0 <= n < |steps| ==> steps[n] != Cancel(id)
    ensures var (with, without) := (After(s, steps), After(Apply(s, Remove(id)), steps));
      AlikeBut(with, without, id) && Started(with, step) == Started(without, step)
  {
    hide AlikeBut, Started;
    if steps == [] {
      assert AlikeBut(s, Apply(s, Remove(id)), id) by { RemovedAlike(s, id); }
    } else {
      RemovalUnseen(s, steps[..|steps| - 1], steps[|steps| - 1], id);
      StepAlike(After(s, steps[..|steps| - 1]), After(Apply(s, Remove(id)), steps[..|steps| - 1]), steps[|steps| - 1], id);
    }
    StepAlike(After(s, steps), After(Apply(s, Remove(id)), steps), step, id);
  }

  lemma RemovedAlike(s: State, id: string)
    ensures AlikeBut(s, Apply(s, Remove(id)), id)
  {
  }

  // ---------------------------------------------------------------- it still starts

  /** A step of the worker or of the clock. */
  predicate WorkerStep(step: Step) {
    step.Tick? || step.Sweep? || step.Pop? || step.Check? || step.Finish? || step.Rearm? || step.Repush?
  }

  lemma {:induction false} AfterConcat(s: State, a: seq<Step>, b: seq<Step>)
    ensures After(s, a + b) == After(After(s, a), b)
  {
    hide Apply;
    if b == [] {
      assert a + b == a;
    } else {
      assert (a + b)[..|a + b| - 1] == a + b[..|b| - 1];
      AfterConcat(s, a, b[..|b| - 1]);
    }
  }

  lemma StaysOverdue(s: State, step: Step, id: string)
    requires Inv(s) && Overdue(s, id) && WorkerStep(step) && id in Ids(Apply(s, step).heap)
    ensures Inv(Apply(s, step)) && Overdue(Apply(s, step), id)
    ensures |Smaller(Apply(s, step), id)| <= |Smaller(s, id)| - |PoppedIds(s, step)|
  {
    hide Insert, SweptHeap, Smaller, PoppedIds, HeapInv, UnpushedInv, TableInv;
    StepKeeps(s, step);
    OverdueCount(s, step, id);
  }

  /** The worker at its loop head with an overdue job starts that job, or runs another one first and is back at its
      loop head with fewer entries in front of it. */
  lemma OneRound(s: State, id: string) returns (steps: seq<Step>)
    requires Inv(s) && s.worker == AtHead && Overdue(s, id)
    ensures forall n :: 0 <= n < |steps| ==> WorkerStep(steps[n])
    ensures var t := After(s, steps);
      Started(t, Check) == Some(id)
      || (Inv(t) && t.worker == AtHead && Overdue(t, id) && |Smaller(t, id)| < |Smaller(s, id)|)
  {
    hide Apply, Inv, Overdue, Smaller, Started, PoppedIds, Ids;
    var s1 := Apply(s, Sweep);
    SweptDue(s, id);
    var s2 := Apply(s1, Pop);
    PoppedTop(s1, id);
    if s1.heap[0].id == id {
      steps := [Sweep, Pop];
      AfterTwo(s, Sweep, Pop);
    } else {
      var s3 := Apply(s2, Check);
      var s4 := Apply(s3, Finish(true));
      RunsOther(s2, id);
      if s4.worker == AtHead {
        steps := [Sweep, Pop] + [Check, Finish(true)];
        AfterTwo(s, Sweep, Pop);
        AfterTwo(s2, Check, Finish(true));
        AfterConcat(s, [Sweep, Pop], [Check, Finish(true)]);
      } else {
        RearmsOther(s4, id);
        steps := ([Sweep, Pop] + [Check, Finish(true)]) + [Rearm, Repush];
        AfterTwo(s, Sweep, Pop);
        AfterTwo(s2, Check, Finish(true));
        AfterTwo(s4, Rearm, Repush);
        AfterConcat(s, [Sweep, Pop], [Check, Finish(true)]);
        AfterConcat(s, [Sweep, Pop] + [Check, Finish(true)], [Rearm, Repush]);
      }
    }
  }

  lemma AfterTwo(s: State, a: Step, b: Step)
    ensures After(s, [a, b]) == Apply(Apply(s, a), b)
  {
    hide Apply;
    assert [a, b][..1] == [a] && [a][..0] == [];
    assert After(s, [a]) == Apply(s, a);
  }

  lemma SweptDue(s: State, id: string)
    requires Inv(s) && s.worker == AtHead && Overdue(s, id)
    ensures var t := Apply(s, Sweep);
      && Inv(t) && Overdue(t, id) && t.worker == Due && t.heap != [] && t.heap[0].id in t.jobs
      && t.jobs[t.heap[0].id].status == Pending && |Smaller(t, id)| <= |Smaller(s, id)|
  {
    hide Smaller, PoppedIds, TableInv, UnpushedInv;
    NoIdleWhileDue(s, id);
    var n := SweptSuffix(s.heap, s.jobs);
    assert n < |s.heap| ==> s.heap[n] in s.heap && Apply(s, Sweep).heap[0] == s.heap[n];
    OverdueSweep(s, id);
    StaysOverdue(s, Sweep, id);
  }

  lemma PoppedTop(s: State, id: string)
    requires Inv(s) && Overdue(s, id) && s.worker == Due && s.heap != [] && s.heap[0].id in s.jobs
    requires s.jobs[s.heap[0].id].status == Pending
    ensures var t := Apply(s, Pop);
      if s.heap[0].id == id then Started(t, Check) == Some(id)
      else Inv(t) && Overdue(t, id) && t.worker == Holding(s.heap[0].id) && s.heap[0].id in t.jobs
           && t.jobs[s.heap[0].id].status == Pending && |Smaller(t, id)| < |Smaller(s, id)|
  {
    hide Smaller, Inv, Overdue;
    if s.heap[0].id != id {
      OverdueStep(s, Pop, id);
      StaysInHeap(s, id);
      StaysOverdue(s, Pop, id);
      PoppedCount(s, Pop);
    }
  }

  lemma StaysInHeap(s: State, id: string)
    requires Inv(s) && Overdue(s, id) && s.worker == Due && s.heap != [] && s.heap[0].id != id
    ensures id in Ids(Apply(s, Pop).heap)
  {
    hide Inv;
    var k :| k in s.heap && k.id == id;
    assert k in s.heap[1..];
  }

  lemma RunsOther(s: State, id: string)
    requires Inv(s) && Overdue(s, id) && s.worker.Holding? && s.worker.id in s.jobs
    requires s.jobs[s.worker.id].status == Pending
    ensures var t := Apply(Apply(s, Check), Finish(true));
      Inv(t) && Overdue(t, id) && (t.worker == AtHead || t.worker.Finished?) && |Smaller(t, id)| <= |Smaller(s, id)|
  {
    hide Smaller, PoppedIds, HeapInv, TableInv, UnpushedInv;
    StaysOverdue(s, Check, id);
    StaysOverdue(Apply(s, Check), Finish(true), id);
  }

  lemma RearmsOther(s: State, id: string)
    requires Inv(s) && Overdue(s, id) && s.worker.Finished?
    ensures var t := Apply(Apply(s, Rearm), Repush);
      Inv(t) && Overdue(t, id) && t.worker == AtHead && |Smaller(t, id)| <= |Smaller(s, id)|
  {
    hide Smaller, PoppedIds, HeapInv, TableInv, UnpushedInv, Insert;
    FinishedHasInterval(s);
    StaysOverdue(s, Rearm, id);
    OverduePush(Apply(s, Rearm), Repush, id);
    StaysOverdue(Apply(s, Rearm), Repush, id);
  }

  lemma FinishedHasInterval(s: State)
    requires Inv(s) && s.worker.Finished?
    ensures s.worker.id in s.jobs && s.jobs[s.worker.id].interval.Some?
  {
  }

  /** From its loop head the worker by itself comes to start any overdue job. */
  lemma {:induction false} OverdueStarts(s: State, id: string) returns (steps: seq<Step>)
    requires Inv(s) && s.worker == AtHead && Overdue(s, id)
    ensures (forall n :: 0 <= n < |steps| ==> WorkerStep(steps[n])) && Started(After(s, steps), Check) == Some(id)
    decreases |Smaller(s, id)|
  {
    hide Apply, Inv, Overdue, Smaller, Started, WorkerStep;
    var round := OneRound(s, id);
    if Started(After(s, round), Check) == Some(id) {
      steps := round;
    } else {
      var rest := OverdueStarts(After(s, round), id);
      AfterConcat(s, round, rest);
      steps := round + rest;
    }
  }

  /** A job that was pending in the heap when it was removed is started by the worker once its time has passed. */
  lemma RemovedStillStarts(s: State, id: string) returns (steps: seq<Step>)
    requires Inv(s) && s.worker == AtHead && id in s.jobs && s.jobs[id].status == Pending && id in Ids(s.heap)
    ensures (forall n :: 0 <= n < |steps| ==> WorkerStep(steps[n]))
    ensures Started(After(Apply(s, Remove(id)), steps), Check) == Some(id)
  {
    var t := Apply(s, Remove(id));
    StepKeeps(s, Remove(id));
    var later := if t.now > t.jobs[id].runAt then t.now else t.jobs[id].runAt + 1.0;
    StepKeeps(t, Tick(later));
    var rest := OverdueStarts(Apply(t, Tick(later)), id);
    steps := [Tick(later)] + rest;
    assert After(t, [Tick(later)]) == Apply(t, Tick(later)) by { assert [Tick(later)][..0] == []; }
    AfterConcat(t, [Tick(later)], rest);
  }

  /** And one that the worker held is started at once. */
  lemma HeldStillStarts(s: State, id: string)
    requires Inv(s) && s.worker == Holding(id) && s.jobs[id].status == Pending
    ensures Started(Apply(s, Remove(id)), Check) == Some(id)
  {
  }

  // ---------------------------------------------------------------- and cannot be cancelled

  /** The step puts the job into the table. */
  predicate Pushes(s: State, step: Step, id: string) {
    id in s.jobs && ((step == Push(id) && id in s.unpushed && s.worker != Rearmed(id)) || (step == Repush && s.worker == Rearmed(id)))
  }

  /** Some step of the run does. */
  ghost predicate PushedIn(s: State, steps: seq<Step>, id: string) {
    exists n :: 0 <= n < |steps| && Pushes(After(s, steps[..n]), steps[n], id)
  }

  lemma PushedInLonger(s: State, steps: seq<Step>, step: Step, id: string)
    ensures PushedIn(s, steps + [step], id) <==> PushedIn(s, steps, id) || Pushes(After(s, steps), step, id)
  {
    hide Pushes, After;
    var more := steps + [step];
    assert more[..|steps|] == steps && more[|steps|] == step;
    assert forall n :: 0 <= n < |steps| ==> more[..n] == steps[..n] && more[n] == steps[n];
    if PushedIn(s, steps, id) {
      var n :| 0 <= n < |steps| && Pushes(After(s, steps[..n]), steps[n], id);
      assert Pushes(After(s, more[..n]), more[n], id);
    }
    if Pushes(After(s, steps), step, id) { assert Pushes(After(s, more[..|steps|]), more[|steps|], id); }
  }

  /** A removed job cannot be cancelled until it is pushed again. */
  lemma {:induction false} NotCancellable(s: State, steps: seq<Step>, id: string)
    requires !PushedIn(Apply(s, Remove(id)), steps, id)
    ensures var t := After(Apply(s, Remove(id)), steps); id !in t.table && !CancelSucceeds(t, id)
  {
    hide PushedIn, Pushes, Apply;
    if steps == [] {
      OutAtOnce(s, id);
    } else {
      var (init, last) := (steps[..|steps| - 1], steps[|steps| - 1]);
      assert steps == init + [last];
      PushedInLonger(Apply(s, Remove(id)), init, last, id);
      NotCancellable(s, init, id);
      NotPushed(After(Apply(s, Remove(id)), init), last, id);
    }
  }

  lemma OutAtOnce(s: State, id: string)
    ensures id !in Apply(s, Remove(id)).table
  {
  }

  lemma NotPushed(s: State, step: Step, id: string)
    requires id !in s.table && !Pushes(s, step, id)
    ensures id !in Apply(s, step).table
  {
    hide Insert, SweptHeap, Ids;
  }

  /** In the table, or cancelled and so out of it for good. */
  ghost predicate TableOrCancelled(s: State, id: string) {
    id in s.table || (id in s.jobs && s.jobs[id].status == Cancelled)
  }

  lemma OutOrPushed(s: State, step: Step, id: string)
    requires Inv(s) && step != Remove(id)
    ensures id !in s.table && !Pushes(s, step, id) ==> id !in Apply(s, step).table
    ensures TableOrCancelled(s, id) || Pushes(s, step, id) ==> TableOrCancelled(Apply(s, step), id)
  {
    hide Insert;
    if step == Sweep { SweptNotPending(s, id); }
  }

  lemma SweptNotPending(s: State, id: string)
    requires Inv(s)
    ensures id in Ids(s.heap) - Ids(SweptHeap(s.heap, s.jobs)) ==> id in s.jobs && s.jobs[id].status == Cancelled
  {
    hide SweptHeap;
    var n := SweptSuffix(s.heap, s.jobs);
    assert forall q :: n <= q < |s.heap| ==> s.heap[n..][q - n] == s.heap[q];
    if id in Ids(s.heap) - Ids(s.heap[n..]) {
      var k :| k in s.heap && k.id == id;
      var p :| 0 <= p < |s.heap| && s.heap[p] == k;
      assert p < n;
    }
  }

  lemma {:induction false} TableSincePush(s: State, steps: seq<Step>, id: string)
    requires Inv(s) && id !in s.table && forall n :: 0 <= n < |steps| ==> steps[n] != Remove(id)
    ensures var t := After(s, steps); if PushedIn(s, steps, id) then TableOrCancelled(t, id) else id !in t.table
  {
    hide Inv, Apply, TableOrCancelled, PushedIn, Pushes;
    if steps == [] {
      NothingPushed(s, id);
    } else {
      var (init, last) := (steps[..|steps| - 1], steps[|steps| - 1]);
      assert steps == init + [last];
      TableSincePush(s, init, id);
      PushedInLonger(s, init, last, id);
      RunKeeps(s, init);
      OutOrPushed(After(s, init), last, id);
    }
  }

  lemma NothingPushed(s: State, id: string)
    ensures !PushedIn(s, [], id)
  {
  }

  /** After its removal, and until it is removed again, a job can be cancelled exactly when it is pending and has been
      pushed again. */
  lemma CancellableExactly(s: State, steps: seq<Step>, id: string)
    requires Inv(s) && forall n :: 0 <= n < |steps| ==> steps[n] != Remove(id)
    ensures var (start, end) := (Apply(s, Remove(id)), After(Apply(s, Remove(id)), steps));
      CancelSucceeds(end, id) <==> id in end.jobs && end.jobs[id].status == Pending && PushedIn(start, steps, id)
  {
    hide Inv, PushedIn, After;
    StepKeeps(s, Remove(id));
    TableSincePush(Apply(s, Remove(id)), steps, id);
  }
}
