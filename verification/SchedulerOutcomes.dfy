/** What a run tells of a job: how it ended, when it is due, and which job goes first (buster/kernel/scheduler.py). */
module SchedulerOutcomes {
  import opened Text
  import opened SchedulerModel
  import opened SchedulerFacts

  // ---------------------------------------------------------------- how a job ended

  /** How the job's function ended last in the run, unless the job was re-armed since: returned or raised. */
  function LastEnd(s: State, steps: seq<Step>, id: string): Option<bool> {
    if steps == [] then None
    else
      var (before, last) := (After(s, steps[..|steps| - 1]), steps[|steps| - 1]);
      if last.Finish? && before.worker == InJob(id) then Some(last.ok)
      else if last == Rearm && before.worker == Finished(id) then None
      else LastEnd(s, steps[..|steps| - 1], id)
  }

  /** The end the status tells. */
  ghost predicate TellsEnd(s: State, id: string, end: Option<bool>) {
    if id !in s.jobs then end == None
    else
      && (s.jobs[id].status == Completed <==> end == Some(true))
      && (s.jobs[id].status == Failed <==> end == Some(false))
  }

  lemma StepTells(s: State, step: Step, id: string, end: Option<bool>)
    requires Inv(s) && TellsEnd(s, id, end)
    ensures TellsEnd(Apply(s, step), id,
                     if step.Finish? && s.worker == InJob(id) then Some(step.ok)
                     else if step == Rearm && s.worker == Finished(id) then None
                     else end)
  {
    hide Insert, SweptHeap, Ids;
  }

  /** In every run a job is completed exactly when its function last returned, and failed exactly when it last raised,
      re-arming clearing both. */
  lemma {:induction false} EndedAs(steps: seq<Step>, id: string)
    ensures TellsEnd(After(INIT, steps), id, LastEnd(INIT, steps, id))
  {
    hide Apply, Inv, TellsEnd;
    if steps == [] {
      NothingEnded(id);
    } else {
      EndedAs(steps[..|steps| - 1], id);
      ReachableInv(steps[..|steps| - 1]);
      StepTells(After(INIT, steps[..|steps| - 1]), steps[|steps| - 1], id, LastEnd(INIT, steps[..|steps| - 1], id));
    }
  }

  lemma NothingEnded(id: string)
    ensures TellsEnd(INIT, id, None)
  {
  }

  /** A job that is not periodic keeps the end it came to for good. */
  lemma EndStays(before: seq<Step>, ok: bool, id: string, after: seq<Step>)
    requires var s := After(INIT, before); s.worker == InJob(id) && id in s.jobs && !Periodic(s.jobs[id])
    ensures var t := After(Apply(After(INIT, before), Finish(ok)), after);
      id in t.jobs && t.jobs[id].status == if ok then Completed else Failed
  {
    hide After, Inv, Apply;
    ReachableInv(before);
    var s := After(INIT, before);
    StepKeeps(s, Finish(ok));
    EndedForGood(s, ok, id);
    StaysEnded(Apply(s, Finish(ok)), after, id, if ok then Completed else Failed);
  }

  /** Ended, not in the worker's hands, and not to be re-armed. */
  ghost predicate Ended(s: State, id: string, status: Status) {
    id in s.jobs && s.jobs[id].status == status && s.worker != Finished(id) && (status == Completed || status == Failed)
  }

  lemma EndedForGood(s: State, ok: bool, id: string)
    requires Inv(s) && s.worker == InJob(id) && !Periodic(s.jobs[id])
    ensures Ended(Apply(s, Finish(ok)), id, if ok then Completed else Failed)
  {
    var t := Apply(s, Finish(ok));
    assert TellsEnd(s, id, None) && TellsEnd(t, id, Some(ok)) by { RunningTells(s, ok, id); }
  }

  lemma RunningTells(s: State, ok: bool, id: string)
    requires Inv(s) && s.worker == InJob(id)
    ensures TellsEnd(s, id, None) && TellsEnd(Apply(s, Finish(ok)), id, Some(ok))
  {
    StepTells(s, Finish(ok), id, None);
  }

  lemma StepEnded(s: State, step: Step, id: string, status: Status)
    requires Inv(s) && Ended(s, id, status)
    ensures Ended(Apply(s, step), id, status)
  {
    hide Insert, SweptHeap, Ids;
  }

  lemma {:induction false} StaysEnded(s: State, steps: seq<Step>, id: string, status: Status)
    requires Inv(s) && Ended(s, id, status)
    ensures Ended(After(s, steps), id, status)
  {
    hide Inv, Apply, Ended;
    if steps != [] {
      StaysEnded(s, steps[..|steps| - 1], id, status);
      RunKeeps(s, steps[..|steps| - 1]);
      StepEnded(After(s, steps[..|steps| - 1]), steps[|steps| - 1], id, status);
    }
  }

  /** In every run a job is running exactly while the worker is in its function. */
  lemma RunningExactly(steps: seq<Step>, id: string)
    ensures var s := After(INIT, steps);
      id in s.jobs && s.jobs[id].status == Running <==> s.worker == InJob(id)
  {
    hide After, HeapInv, UnpushedInv;
    ReachableInv(steps);
  }

  /** A job without an interval, or with one that is not positive, starts at most once. */
  lemma NoIntervalRunsOnce(before: seq<Step>, ok: bool, id: string, after: seq<Step>, step: Step)
    requires var s := After(INIT, before);
      s.worker == InJob(id) && id in s.jobs && (s.jobs[id].interval.None? || s.jobs[id].interval.value <= 0.0)
    ensures Started(After(Apply(After(INIT, before), Finish(ok)), after), step) != Some(id)
  {
    hide After, Apply, Started;
    OneShotRunsOnce(before, ok, id, after, step);
  }

  /** One with a positive interval is pending in the heap again after its end and the worker's next two steps, its
      interval from then. */
  lemma IntervalRunsAgain(before: seq<Step>, ok: bool, id: string)
    requires var s := After(INIT, before);
      s.worker == InJob(id) && id in s.jobs && s.jobs[id].interval.Some? && s.jobs[id].interval.value > 0.0
    ensures var (s, t) := (After(INIT, before), Apply(Apply(Apply(After(INIT, before), Finish(ok)), Rearm), Repush));
      id in Ids(t.heap) && id in t.jobs && t.jobs[id].status == Pending && t.jobs[id].runAt == s.now + s.jobs[id].interval.value
  {
    hide After, Apply;
    ReachableInv(before);
    RearmedEitherWay(After(INIT, before), id, ok);
  }

  // ---------------------------------------------------------------- when it is due

  /** The job is as it was scheduled. */
  ghost predicate DueAt(s: State, id: string, at: real, every: Option<real>, priority: int) {
    id in s.jobs && s.jobs[id].runAt == at && s.jobs[id].interval == every && s.jobs[id].priority == priority
  }

  /** No step of the run re-arms the job. */
  ghost predicate NotRearmed(s: State, steps: seq<Step>, id: string) {
    forall n :: 0 <= n < |steps| ==> !(steps[n] == Rearm && After(s, steps[..n]).worker == Finished(id))
  }

  lemma StepDueAt(s: State, step: Step, id: string, at: real, every: Option<real>, priority: int)
    requires DueAt(s, id, at, every, priority) && !(step == Rearm && s.worker == Finished(id))
    ensures DueAt(Apply(s, step), id, at, every, priority)
  {
    hide Insert, SweptHeap, Ids;
  }

  lemma {:induction false} StaysDueAt(s: State, steps: seq<Step>, id: string, at: real, every: Option<real>, priority: int)
    requires DueAt(s, id, at, every, priority) && NotRearmed(s, steps, id)
    ensures DueAt(After(s, steps), id, at, every, priority)
  {
    hide Apply, DueAt;
    if steps != [] {
      var init := steps[..|steps| - 1];
      assert forall n :: 0 <= n < |init| ==> init[..n] == steps[..n];
      StaysDueAt(s, init, id, at, every, priority);
      StepDueAt(After(s, init), steps[|steps| - 1], id, at, every, priority);
    }
  }

  /** Until it is re-armed, a job is due at the time it was scheduled plus its delay, a negative delay counting as none;
      so it never starts before. */
  lemma DueAsScheduled(before: seq<Step>, id: string, delay: real, every: Option<real>, priority: int, after: seq<Step>)
    requires var s := After(INIT, before); id !in s.jobs && NotRearmed(Apply(s, Create(id, delay, every, priority)), after, id)
    ensures var (s, t) := (After(INIT, before), After(Apply(After(INIT, before), Create(id, delay, every, priority)), after));
      && id in t.jobs && t.jobs[id].interval == every && t.jobs[id].priority == priority
      && t.jobs[id].runAt >= s.now && t.jobs[id].runAt >= s.now + delay
      && (t.jobs[id].runAt == s.now || t.jobs[id].runAt == s.now + delay)
  {
    hide After;
    var s := After(INIT, before);
    StaysDueAt(Apply(s, Create(id, delay, every, priority)), after, id, s.now + (if delay > 0.0 then delay else 0.0), every, priority);
  }

  // ---------------------------------------------------------------- which job goes first

  /** The job the worker pops has the earliest time of all in the heap; among equals, the least priority number; among
      these, the least id. */
  lemma EarliestFirst(steps: seq<Step>, other: string)
    requires var s := After(INIT, steps); s.worker == Due && other in Ids(s.heap)
    ensures var (s, t) := (After(INIT, steps), Apply(After(INIT, steps), Pop));
      && t.worker.Holding? && t.worker.id in s.jobs && other in s.jobs
      && var (a, b) := (s.jobs[t.worker.id], s.jobs[other]);
         && a.runAt <= b.runAt
         && (a.runAt == b.runAt ==> a.priority <= b.priority)
         && (a.runAt == b.runAt && a.priority == b.priority ==> CompareText(t.worker.id, other) <= 0)
  {
    hide After, UnpushedInv, TableInv, CompareText;
    ReachableInv(steps);
    var s := After(INIT, steps);
    var k :| k in s.heap && k.id == other;
    var p :| 0 <= p < |s.heap| && s.heap[p] == k;
    CompareTextLaws(other, other);
    assert s.heap[0] in s.heap;
    assert p > 0 ==> KeyLess(s.heap[0], s.heap[p]);
  }
}
