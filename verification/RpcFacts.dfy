/** What holds of every interleaving of RPC clients and the server: linearizability, and replies that get lost. */
module RpcFacts {
  import opened Text
  import opened FileRpc

  /** The executions form one sequential history of the kernel, in which every request occurs at most once. */
  lemma OneSequentialHistory<K, Op, R>(f: (K, Op) -> (K, R), k: K, steps: seq<Step<Op>>)
    requires Possible(f, k, steps)
    ensures var s := After(f, k, steps);
      && Sequential(f, k, s.log) && s.kernel == Replay(f, k, s.log)
      && (forall i, j :: 0 <= i < j < |s.log| ==> s.log[i].id != s.log[j].id)
      && (forall i :: 0 <= i < |s.log| ==> s.log[i].id in s.calls && s.log[i].op == s.calls[s.log[i].id].request.op)
  {
    hide After, FileInv, ServerInv, AddressInv, OutboxInv, ResultInv, Sequential, Replay;
    Reachable(f, k, steps);
  }

  /** A call that returned was executed exactly once, with its own operation and the response it returned, after
      it began and before it returned. */
  lemma ReturnsOwnResult<K, Op, R>(f: (K, Op) -> (K, R), k: K, steps: seq<Step<Op>>, id: string) returns (i: nat)
    requires Possible(f, k, steps)
    requires var s := After(f, k, steps); id in s.calls && s.calls[id].phase.Returned?
    ensures var (s, call) := (After(f, k, steps), After(f, k, steps).calls[id]);
      && i < |s.log| && s.log[i].id == id && s.log[i].op == call.request.op && s.log[i].response == call.phase.result
      && call.begunAt < s.log[i].at < call.phase.at
  {
    hide After, FileInv, ServerInv, AddressInv, OutboxInv, LogInv;
    Reachable(f, k, steps);
    var s := After(f, k, steps);
    assert ResultOf(s, id);
    i :| 0 <= i < |s.log| && s.log[i] == s.executed[id];
  }

  /** A call that began after another returned is executed later, so its response comes from a kernel state that
      includes the other's effects. */
  lemma LaterCallsSeeEffects<K, Op, R>(f: (K, Op) -> (K, R), k: K, steps: seq<Step<Op>>, a: string, j: nat)
    returns (i: nat)
    requires Possible(f, k, steps)
    requires var s := After(f, k, steps);
      a in s.calls && s.calls[a].phase.Returned? && j < |s.log| && s.log[j].id in s.calls
      && s.calls[a].phase.at <= s.calls[s.log[j].id].begunAt
    ensures var s := After(f, k, steps);
      i < j < |s.log| && s.log[i].id == a && s.log[i].response == s.calls[a].phase.result
      && s.log[j].response == f(Replay(f, k, s.log[..j]), s.log[j].op).1
  {
    hide After, FileInv, ServerInv, AddressInv, OutboxInv, ResultInv, Replay;
    Reachable(f, k, steps);
    i := ReturnsOwnResult(f, k, steps, a);
  }

  // ---------------------------------------------------------------- which replies get lost

  /** The server has executed the request but not yet published a reply. */
  predicate Replying<Op, R>(server: Server<Op, R>, id: string) {
    (server.Executed? && server.source == id) || (server.ReplyWritten? && server.source == id)
  }

  predicate Received<R>(phase: Phase<R>) { phase.Got? || phase.Returned? }

  /** The reply to an executed request that is addressed to its own id lies ready until its caller takes it or gives
      up. */
  ghost predicate RepliesReady<K, Op, R>(s: State<K, Op, R>) {
    forall id :: id in s.executed && id in s.calls && s.calls[id].request.replyTo == Some(id) && !Replying(s.server, id) ==>
      id in s.outbox || Received(s.calls[id].phase) || s.calls[id].phase.TimedOut?
  }

  lemma ClientKeepsReplies<K, Op, R>(s: State<K, Op, R>, s': State<K, Op, R>, id: string)
    requires RepliesReady(s) && id in s.calls && id in s'.calls && s'.calls == WithPhase(s.calls, id, s'.calls[id].phase)
    requires s'.executed == s.executed && s'.server == s.server
    requires s'.outbox == s.outbox || (s'.outbox == s.outbox - {id} && (Received(s'.calls[id].phase) || s'.calls[id].phase.TimedOut?))
    requires Received(s.calls[id].phase) ==> Received(s'.calls[id].phase)
    requires s.calls[id].phase.TimedOut? ==> s'.calls[id].phase.TimedOut?
    ensures RepliesReady(s')
  {
  }

  lemma ServerKeepsReplies<K, Op, R>(f: (K, Op) -> (K, R), s: State<K, Op, R>, step: Step<Op>)
    requires RepliesReady(s) && ServerInv(s) && Enabled(s, step)
    requires step.List? || step.Load? || step.Execute? || step.WriteReply? || step.RenameReply? || step.RemoveRequest?
    ensures RepliesReady(Apply(f, s, step))
  {
    hide Unserved, Pass, Enumerates;
  }

  lemma BeginKeepsReplies<K, Op, R>(s: State<K, Op, R>, id: string, op: Op, override: Option<string>)
    requires RepliesReady(s) && ExecutionInv(s) && Fresh(s, id, override)
    ensures RepliesReady(DoBegin(s, id, op, override))
  {
  }

  lemma StepKeepsReplies<K, Op, R>(f: (K, Op) -> (K, R), s: State<K, Op, R>, step: Step<Op>)
    requires Inv(f, s) && RepliesReady(s) && Enabled(s, step)
    ensures RepliesReady(Apply(f, s, step))
  {
    hide LogInv, OrderInv, ExecutionInv, FileInv, ServerInv, AddressInv, OutboxInv, ResultInv, RepliesReady, Fresh, Enumerates;
    match step
    case Begin(id, op, override) => BeginKeepsReplies(s, id, op, override);
    case WriteTmp(id) => ClientKeepsReplies(s, DoWriteTmp(s, id), id);
    case Rename(id) => ClientKeepsReplies(s, DoRename(s, id), id);
    case Poll(id) => ClientKeepsReplies(s, DoPoll(s, id), id);
    case Collect(id) => ClientKeepsReplies(s, DoCollect(s, id), id);
    case Timeout(id) => ClientKeepsReplies(s, DoTimeout(s, id), id);
    case _ => ServerKeepsReplies(f, s, step);
  }

  lemma {:induction false} AlwaysReady<K, Op, R>(f: (K, Op) -> (K, R), k: K, steps: seq<Step<Op>>)
    requires Possible(f, k, steps)
    ensures RepliesReady(After(f, k, steps))
  {
    hide Enabled, Apply, Inv, RepliesReady;
    if steps == [] {
      NothingExecuted<K, Op, R>(k);
    } else {
      AlwaysReady(f, k, steps[..|steps| - 1]);
      Reachable(f, k, steps[..|steps| - 1]);
      StepKeepsReplies(f, After(f, k, steps[..|steps| - 1]), steps[|steps| - 1]);
    }
  }

  lemma NothingExecuted<K, Op, R>(k: K)
    ensures RepliesReady(Init<K, Op, R>(k))
  {
  }

  /** Once the server is done with an executed request whose caller has not given up, the caller has its reply or
      finds it exactly when the request is addressed to its own id: a call whose arguments override the id (as the
      remote cancel of a job does) loses its reply, and no other call does. */
  lemma ReplyLostExactly<K, Op, R>(f: (K, Op) -> (K, R), k: K, steps: seq<Step<Op>>, id: string)
    requires Possible(f, k, steps)
    requires var s := After(f, k, steps);
      id in s.executed && id in s.calls && !Replying(s.server, id) && !s.calls[id].phase.TimedOut?
    ensures var (s, call) := (After(f, k, steps), After(f, k, steps).calls[id]);
      call.request.replyTo == Some(id) <==> id in s.outbox || Received(call.phase)
  {
    hide After, FileInv, ServerInv, LogInv, OrderInv, ExecutionInv;
    Reachable(f, k, steps);
    AlwaysReady(f, k, steps);
    var s := After(f, k, steps);
    assert ResultOf(s, id);
    if id in s.outbox { PolledResult(s, id); }
  }

  /** A request executed under an overriding id never brings its caller a response. */
  lemma OverriddenCallsNeverReturn<K, Op, R>(f: (K, Op) -> (K, R), k: K, steps: seq<Step<Op>>, id: string)
    requires Possible(f, k, steps)
    requires var s := After(f, k, steps); id in s.calls && s.calls[id].request.replyTo != Some(id)
    ensures !Received(After(f, k, steps).calls[id].phase)
  {
    hide After, FileInv, ServerInv, AddressInv, OutboxInv, LogInv, OrderInv;
    Reachable(f, k, steps);
    assert ResultOf(After(f, k, steps), id);
  }

  /** Whatever lies in the reply directory under a request id is the response of that request. */
  lemma RepliesAreOwn<K, Op, R>(f: (K, Op) -> (K, R), k: K, steps: seq<Step<Op>>, id: string)
    requires Possible(f, k, steps)
    requires var s := After(f, k, steps); id in s.calls && id in s.outbox
    ensures var s := After(f, k, steps); id in s.executed && s.executed[id].response == s.outbox[id]
  {
    hide After, FileInv, ServerInv, ResultInv, LogInv, OrderInv;
    Reachable(f, k, steps);
    PolledResult(After(f, k, steps), id);
  }
}
