/** Calls do return: whatever clients and server have done so far, the server's own steps and the caller's polling bring
    a waiting call its response (buster/runtime.py). */
module RpcProgress {
  import opened Text
  import opened FileRpc
  import opened RpcFacts

  // ---------------------------------------------------------------- runs from any state

  ghost predicate Runs<K, Op, R>(f: (K, Op) -> (K, R), s: State<K, Op, R>, steps: seq<Step<Op>>, t: State<K, Op, R>)
    decreases |steps|
  {
    if steps == [] then s == t else Enabled(s, steps[0]) && Runs(f, Apply(f, s, steps[0]), steps[1..], t)
  }

  lemma {:induction false} RunsOn<K, Op, R>(f: (K, Op) -> (K, R), s: State<K, Op, R>, a: seq<Step<Op>>, t: State<K, Op, R>,
                                            b: seq<Step<Op>>, u: State<K, Op, R>)
    requires Runs(f, s, a, t) && Runs(f, t, b, u)
    ensures Runs(f, s, a + b, u)
    decreases |a|
  {
    hide Enabled, Apply;
    if a == [] {
      assert a + b == b;
    } else {
      assert (a + b)[0] == a[0] && (a + b)[1..] == a[1..] + b;
      RunsOn(f, Apply(f, s, a[0]), a[1..], t, b, u);
    }
  }

  lemma {:induction false} RunsAfter<K, Op, R>(f: (K, Op) -> (K, R), k: K, steps: seq<Step<Op>>, more: seq<Step<Op>>,
                                               t: State<K, Op, R>)
    requires Possible(f, k, steps) && Runs(f, After(f, k, steps), more, t)
    ensures Possible(f, k, steps + more) && After(f, k, steps + more) == t
    decreases |more|
  {
    hide Enabled, Apply;
    if more == [] {
      assert steps + more == steps;
    } else {
      var longer := steps + [more[0]];
      assert longer[..|longer| - 1] == steps && longer[|longer| - 1] == more[0];
      RunsAfter(f, k, longer, more[1..], t);
      assert longer + more[1..] == steps + more;
    }
  }

  // ---------------------------------------------------------------- what progress rests on

  /** The request of a waiting call is in the directory until it is executed, and what the server is done executing has
      been executed. */
  ghost predicate Lasting<K, Op, R>(s: State<K, Op, R>) {
    && (forall id :: id in s.calls && s.calls[id].phase.Waiting? && id !in s.executed ==> id in s.inbox)
    && (s.server.Executed? || s.server.ReplyWritten? || s.server.Replied? ==> s.server.source in s.executed)
  }

  ghost predicate Good<K, Op, R>(f: (K, Op) -> (K, R), s: State<K, Op, R>) { Inv(f, s) && RepliesReady(s) && Lasting(s) }

  lemma StepLasts<K, Op, R>(f: (K, Op) -> (K, R), s: State<K, Op, R>, step: Step<Op>)
    requires Lasting(s) && Enabled(s, step) && FileInv(s)
    ensures Lasting(Apply(f, s, step))
  {
    hide Fresh, Enumerates;
  }

  lemma StepGood<K, Op, R>(f: (K, Op) -> (K, R), s: State<K, Op, R>, step: Step<Op>)
    requires Good(f, s) && Enabled(s, step)
    ensures Good(f, Apply(f, s, step))
  {
    hide LogInv, OrderInv, ExecutionInv, FileInv, ServerInv, AddressInv, OutboxInv, ResultInv, RepliesReady, Lasting,
         Enabled, Apply;
    StepKeeps(f, s, step);
    StepKeepsReplies(f, s, step);
    StepLasts(f, s, step);
  }

  lemma {:induction false} AlwaysGood<K, Op, R>(f: (K, Op) -> (K, R), k: K, steps: seq<Step<Op>>)
    requires Possible(f, k, steps)
    ensures Good(f, After(f, k, steps))
  {
    hide Enabled, Apply, Good;
    if steps == [] {
      InitGood(f, k);
    } else {
      AlwaysGood(f, k, steps[..|steps| - 1]);
      StepGood(f, After(f, k, steps[..|steps| - 1]), steps[|steps| - 1]);
    }
  }

  lemma InitGood<K, Op, R>(f: (K, Op) -> (K, R), k: K)
    ensures Good(f, Init<K, Op, R>(k))
  {
  }

  // ---------------------------------------------------------------- the server comes to the end of its pass

  predicate ServerStep<Op>(step: Step<Op>) {
    step.List? || step.Load? || step.Execute? || step.WriteReply? || step.RenameReply? || step.RemoveRequest?
  }

  /** The one step the server can take in a pass. */
  function NextStep<Op, R>(server: Server<Op, R>): Step<Op>
    requires !server.Idle?
  {
    match server
    case Serving(_) => Load
    case Loaded(_, _, _) => Execute
    case Executed(_, _, _, _) => WriteReply
    case ReplyWritten(_, _, _, _) => RenameReply
    case Replied(_, _) => RemoveRequest
  }

  /** How many steps the pass has left at most. */
  function Left<Op, R>(server: Server<Op, R>): nat {
    match server
    case Idle => 0
    case Serving(names) => 6 * |names| + 1
    case Loaded(_, _, rest) => 6 * |rest| + 6
    case Executed(_, _, _, rest) => 6 * |rest| + 5
    case ReplyWritten(_, _, _, rest) => 6 * |rest| + 4
    case Replied(_, rest) => 6 * |rest| + 3
  }

  /** The requests the pass has yet to execute. */
  ghost predicate Ahead<Op, R>(server: Server<Op, R>, id: string) {
    match server
    case Idle => false
    case Serving(names) => id in names
    case Loaded(source, _, rest) => id == source || id in rest
    case Executed(_, _, _, rest) => id in rest
    case ReplyWritten(_, _, _, rest) => id in rest
    case Replied(_, rest) => id in rest
  }

  /** How the pass moves on. */
  ghost predicate Follows<Op, R>(a: Server<Op, R>, b: Server<Op, R>) {
    match a
    case Idle => false
    case Serving(names) =>
      if names == [] then b.Idle?
      else (b.Loaded? && b.source == names[0] && b.rest == names[1..]) || b == Serving(names[1..])
    case Loaded(_, _, rest) => b.Executed? && b.rest == rest
    case Executed(_, _, _, rest) => (b.ReplyWritten? || b.Replied?) && b.rest == rest
    case ReplyWritten(_, _, _, rest) => b.Replied? && b.rest == rest
    case Replied(_, rest) => b == Serving(rest)
  }

  lemma FollowsLess<Op, R>(a: Server<Op, R>, b: Server<Op, R>)
    requires Follows(a, b)
    ensures Left(b) < Left(a)
  {
  }

  lemma FollowsAhead<Op, R>(a: Server<Op, R>, b: Server<Op, R>, id: string)
    requires Follows(a, b) && Ahead(a, id)
    ensures Ahead(b, id) || (a.Loaded? && id == a.source) || (a.Serving? && b.Serving? && a.names != [] && id == a.names[0])
  {
  }

  lemma PassGoesOn<K, Op, R>(f: (K, Op) -> (K, R), s: State<K, Op, R>)
    requires !s.server.Idle?
    ensures Enabled(s, NextStep<Op, R>(s.server))
    ensures var t := Apply(f, s, NextStep<Op, R>(s.server));
      && Follows(s.server, t.server) && t.calls == s.calls && s.executed.Keys <= t.executed.Keys
      && (s.server.Loaded? ==> s.server.source in t.executed)
      && (s.server.Serving? && s.server.names != [] && s.server.names[0] in s.inbox ==> t.server.Loaded?)
  {
    match s.server
    case Serving(_) =>
    case Loaded(_, _, _) =>
    case Executed(_, _, _, _) =>
    case ReplyWritten(_, _, _, _) =>
    case Replied(_, _) =>
  }

  lemma NamesListed<K, Op, R>(s: State<K, Op, R>)
    requires ServerInv(s) && s.server.Serving?
    ensures s.server.names != [] ==> s.server.names[0] in s.inbox
  {
    hide Unserved;
  }

  lemma {:induction false} ToIdle<K, Op, R>(f: (K, Op) -> (K, R), s: State<K, Op, R>)
    returns (steps: seq<Step<Op>>, t: State<K, Op, R>)
    requires Good(f, s)
    ensures Runs(f, s, steps, t) && Good(f, t) && t.server.Idle? && forall n :: 0 <= n < |steps| ==> ServerStep(steps[n])
    ensures t.calls == s.calls && s.executed.Keys <= t.executed.Keys
    ensures forall id :: Ahead(s.server, id) ==> id in t.executed
    decreases Left(s.server)
  {
    hide LogInv, OrderInv, ExecutionInv, FileInv, ServerInv, AddressInv, OutboxInv, ResultInv, RepliesReady, Lasting, Enabled,
         Apply, Follows;
    if s.server.Idle? {
      steps, t := [], s;
    } else {
      var step := NextStep<Op, R>(s.server);
      PassGoesOn(f, s);
      FollowsLess(s.server, Apply(f, s, step).server);
      StepGood(f, s, step);
      if s.server.Serving? { NamesListed(s); }
      forall id | Ahead(s.server, id) ensures Ahead(Apply(f, s, step).server, id) || id in Apply(f, s, step).executed {
        FollowsAhead(s.server, Apply(f, s, step).server, id);
      }
      var rest, end := ToIdle(f, Apply(f, s, step));
      steps, t := [step] + rest, end;
      assert steps[1..] == rest;
    }
  }

  lemma {:induction false} Listing(files: set<string>) returns (names: seq<string>)
    ensures Enumerates(names, files)
  {
    if files == {} {
      names := [];
    } else {
      var n :| n in files;
      var rest := Listing(files - {n});
      names := [n] + rest;
    }
  }

  /** The server by itself comes to execute the request of a waiting call, and is idle then. */
  lemma ToExecuted<K, Op, R>(f: (K, Op) -> (K, R), s: State<K, Op, R>, id: string)
    returns (steps: seq<Step<Op>>, t: State<K, Op, R>)
    requires Good(f, s) && id in s.calls && s.calls[id].phase.Waiting?
    ensures Runs(f, s, steps, t) && Good(f, t) && t.server.Idle? && forall n :: 0 <= n < |steps| ==> ServerStep(steps[n])
    ensures t.calls == s.calls && id in t.executed
  {
    hide LogInv, OrderInv, ExecutionInv, FileInv, ServerInv, AddressInv, OutboxInv, ResultInv, RepliesReady, Runs, Enumerates;
    var first, t1 := ToIdle(f, s);
    if id in t1.executed {
      steps, t := first, t1;
    } else {
      var names := Listing(t1.inbox.Keys);
      assert id in names by { ListedIn(names, t1.inbox.Keys, id); }
      StepGood(f, t1, List(names));
      var t2 := Apply(f, t1, List(names));
      var second, t3 := ToIdle(f, t2);
      OneRun(f, t1, List(names));
      RunsOn(f, s, first, t1, [List(names)], t2);
      RunsOn(f, s, first + [List(names)], t2, second, t3);
      steps, t := (first + [List(names)]) + second, t3;
    }
  }

  lemma ListedIn(names: seq<string>, files: set<string>, id: string)
    requires Enumerates(names, files) && id in files
    ensures id in names
  {
  }

  lemma OneRun<K, Op, R>(f: (K, Op) -> (K, R), s: State<K, Op, R>, step: Step<Op>)
    requires Enabled(s, step)
    ensures Runs(f, s, [step], Apply(f, s, step))
  {
    hide Enabled, Apply;
    assert [step][1..] == [];
    assert Runs(f, Apply(f, s, step), [], Apply(f, s, step));
  }

  // ---------------------------------------------------------------- and the caller takes its reply

  /** A poll that finds a reply takes it: the call returns the response of its own execution, and the reply is gone. */
  lemma PollReturns<K, Op, R>(f: (K, Op) -> (K, R), s: State<K, Op, R>, id: string) returns (t: State<K, Op, R>)
    requires Inv(f, s) && id in s.calls && s.calls[id].phase.Waiting? && id in s.outbox
    ensures Runs(f, s, [Poll(id), Collect(id)], t) && id in s.executed
    ensures id in t.calls && t.calls[id].phase.Returned? && t.calls[id].phase.result == s.executed[id].response
    ensures t.outbox == s.outbox - {id} && t.executed == s.executed
    ensures forall c :: c in s.calls && c != id ==> c in t.calls && t.calls[c] == s.calls[c]
  {
    hide LogInv, OrderInv, ExecutionInv, FileInv, ServerInv, ResultInv;
    PolledResult(s, id);
    assert Enabled(s, Poll(id));
    var s1 := Apply(f, s, Poll(id));
    t := Apply(f, s1, Collect(id));
    OneRun(f, s, Poll(id));
    OneRun(f, s1, Collect(id));
    var one: seq<Step<Op>> := [Poll(id)];
    var two: seq<Step<Op>> := [Collect(id)];
    RunsOn(f, s, one, s1, two, t);
    assert one + two == [Poll(id), Collect(id)];
  }

  /** A poll that finds none changes nothing but the time. */
  lemma EmptyPoll<K, Op, R>(f: (K, Op) -> (K, R), s: State<K, Op, R>, id: string)
    requires id in s.calls && s.calls[id].phase.Waiting? && id !in s.outbox
    ensures Apply(f, s, Poll(id)) == s.(time := s.time + 1)
  {
  }

  lemma ReplyLies<K, Op, R>(f: (K, Op) -> (K, R), s: State<K, Op, R>, id: string)
    requires Good(f, s) && s.server.Idle? && id in s.calls && s.calls[id].phase.Waiting? && id in s.executed
    requires s.calls[id].request.replyTo == Some(id)
    ensures id in s.outbox
  {
    hide Inv, Lasting;
  }

  /** After any interleaving, server steps and the caller's own polls make any waiting call that is addressed to its own
      id return, with the response of its execution. */
  lemma WaitingCallReturns<K, Op, R>(f: (K, Op) -> (K, R), k: K, steps: seq<Step<Op>>, id: string)
    returns (more: seq<Step<Op>>)
    requires Possible(f, k, steps)
    requires var s := After(f, k, steps);
      id in s.calls && s.calls[id].phase.Waiting? && s.calls[id].request.replyTo == Some(id)
    ensures forall n :: 0 <= n < |more| ==> ServerStep(more[n]) || more[n] == Poll(id) || more[n] == Collect(id)
    ensures Possible(f, k, steps + more)
    ensures var t := After(f, k, steps + more);
      && id in t.calls && t.calls[id].phase.Returned? && id in t.executed && t.calls[id].phase.result == t.executed[id].response
      && id !in t.outbox
  {
    hide After, Possible, Good, Runs, Inv;
    var s := After(f, k, steps);
    AlwaysGood(f, k, steps);
    var serve, t1 := ToExecuted(f, s, id);
    ReplyLies(f, t1, id);
    GoodInv(f, t1);
    var t2 := PollReturns(f, t1, id);
    RunsOn(f, s, serve, t1, [Poll(id), Collect(id)], t2);
    more := serve + [Poll(id), Collect(id)];
    RunsAfter(f, k, steps, more, t2);
  }

  lemma GoodInv<K, Op, R>(f: (K, Op) -> (K, R), s: State<K, Op, R>)
    requires Good(f, s)
    ensures Inv(f, s)
  {
  }

  /** A call made at any time can be brought to return, with what its own operation gives. */
  lemma NewCallReturns<K, Op, R>(f: (K, Op) -> (K, R), k: K, steps: seq<Step<Op>>, id: string, op: Op)
    returns (more: seq<Step<Op>>, i: nat)
    requires Possible(f, k, steps) && Fresh(After(f, k, steps), id, None)
    ensures Possible(f, k, steps + more)
    ensures var t := After(f, k, steps + more);
      && id in t.calls && t.calls[id].phase.Returned? && i < |t.log| && t.log[i].id == id
      && t.calls[id].phase.result == f(Replay(f, k, t.log[..i]), op).1
  {
    hide After, Possible, Good, Runs, Inv, Sequential, Replay;
    var s := After(f, k, steps);
    var s1, first := GoesOut(f, s, id, op);
    RunsAfter(f, k, steps, first, s1);
    var rest := WaitingCallReturns(f, k, steps + first, id);
    more := first + rest;
    assert (steps + first) + rest == steps + more;
    i := ReturnsOwnResult(f, k, steps + more, id);
    SameRequest(f, k, steps + first, rest, id);
    OneSequentialHistory(f, k, steps + more);
    ResponseOf(f, k, After(f, k, steps + more), i);
  }

  lemma ResponseOf<K, Op, R>(f: (K, Op) -> (K, R), k: K, s: State<K, Op, R>, i: nat)
    requires Sequential(f, k, s.log) && i < |s.log|
    ensures s.log[i].response == f(Replay(f, k, s.log[..i]), s.log[i].op).1
  {
    hide Replay;
  }

  /** A new call's request becomes visible by the caller's own steps. */
  lemma GoesOut<K, Op, R>(f: (K, Op) -> (K, R), s: State<K, Op, R>, id: string, op: Op)
    returns (t: State<K, Op, R>, steps: seq<Step<Op>>)
    requires Fresh(s, id, None)
    ensures Runs(f, s, steps, t)
    ensures id in t.calls && t.calls[id].phase.Waiting? && t.calls[id].request == Request(op, Some(id))
    ensures id in t.inbox && t.inbox[id] == Request(op, Some(id)) && id !in t.inTmp
  {
    var s1 := Apply(f, s, Begin(id, op, None));
    var s2 := Apply(f, s1, WriteTmp(id));
    t := Apply(f, s2, Rename(id));
    OneRun(f, s, Begin(id, op, None));
    OneRun(f, s1, WriteTmp(id));
    OneRun(f, s2, Rename(id));
    RunsOn(f, s, [Begin(id, op, None)], s1, [WriteTmp(id)], s2);
    RunsOn(f, s, [Begin(id, op, None)] + [WriteTmp(id)], s2, [Rename(id)], t);
    steps := ([Begin(id, op, None)] + [WriteTmp(id)]) + [Rename(id)];
  }

  lemma {:induction false} SameRequest<K, Op, R>(f: (K, Op) -> (K, R), k: K, steps: seq<Step<Op>>, more: seq<Step<Op>>, id: string)
    requires Possible(f, k, steps) && Possible(f, k, steps + more) && id in After(f, k, steps).calls
    ensures id in After(f, k, steps + more).calls
    ensures After(f, k, steps + more).calls[id].request == After(f, k, steps).calls[id].request
    decreases |more|
  {
    hide Apply, Enabled;
    if more == [] {
      assert steps + more == steps;
    } else {
      var (init, last) := (more[..|more| - 1], more[|more| - 1]);
      assert (steps + more)[..|steps + more| - 1] == steps + init;
      SameRequest(f, k, steps, init, id);
      StepSameRequest(f, After(f, k, steps + init), last, id);
    }
  }

  lemma StepSameRequest<K, Op, R>(f: (K, Op) -> (K, R), s: State<K, Op, R>, step: Step<Op>, id: string)
    requires Enabled(s, step) && id in s.calls
    ensures id in Apply(f, s, step).calls && Apply(f, s, step).calls[id].request == s.calls[id].request
  {
  }

  // ---------------------------------------------------------------- giving up, and ids that are empty

  /** A caller that gives up takes away what lies at its id, and its call stays given up. */
  lemma GivingUp<K, Op, R>(f: (K, Op) -> (K, R), s: State<K, Op, R>, id: string)
    requires id in s.calls && s.calls[id].phase.Waiting?
    ensures var t := Apply(f, s, Timeout(id));
      t.outbox == s.outbox - {id} && id in t.calls && t.calls[id].phase.TimedOut? && t.inbox == s.inbox
  {
  }

  lemma GivenUpStays<K, Op, R>(f: (K, Op) -> (K, R), s: State<K, Op, R>, step: Step<Op>, id: string)
    requires Enabled(s, step) && id in s.calls && s.calls[id].phase.TimedOut?
    ensures id in Apply(f, s, step).calls && Apply(f, s, step).calls[id].phase.TimedOut?
  {
  }

  /** Its request is executed all the same: the server by itself comes to it. */
  lemma GivenUpStillRuns<K, Op, R>(f: (K, Op) -> (K, R), s: State<K, Op, R>, id: string)
    returns (steps: seq<Step<Op>>, t: State<K, Op, R>)
    requires id in s.calls && s.calls[id].phase.Waiting? && Good(f, s)
    ensures Runs(f, DoTimeout(s, id), steps, t) && id in t.executed && forall n :: 0 <= n < |steps| ==> ServerStep(steps[n])
  {
    hide LogInv, OrderInv, ExecutionInv, FileInv, ServerInv, AddressInv, OutboxInv, ResultInv, RepliesReady, Runs, Enumerates;
    var s1 := DoTimeout(s, id);
    StepGood(f, s, Timeout(id));
    var first, t1 := ToIdle(f, s1);
    if id in t1.executed {
      steps, t := first, t1;
    } else {
      StillThere(f, s1, first, t1, id);
      var names := Listing(t1.inbox.Keys);
      assert id in names by { ListedIn(names, t1.inbox.Keys, id); }
      StepGood(f, t1, List(names));
      var t2 := Apply(f, t1, List(names));
      var second, t3 := ToIdle(f, t2);
      OneRun(f, t1, List(names));
      RunsOn(f, s1, first, t1, [List(names)], t2);
      RunsOn(f, s1, first + [List(names)], t2, second, t3);
      steps, t := (first + [List(names)]) + second, t3;
    }
  }

  /** A request in the directory stays there until it is executed. */
  lemma {:induction false} StillThere<K, Op, R>(f: (K, Op) -> (K, R), s: State<K, Op, R>, steps: seq<Step<Op>>,
                                                t: State<K, Op, R>, id: string)
    requires Runs(f, s, steps, t) && Good(f, s) && (id in s.inbox || id in s.executed) && id !in t.executed
    ensures id in t.inbox
    decreases |steps|
  {
    hide LogInv, OrderInv, ExecutionInv, FileInv, ServerInv, AddressInv, OutboxInv, ResultInv, RepliesReady, Enabled, Apply;
    if steps != [] {
      StepGood(f, s, steps[0]);
      GoodLasting(f, s);
      ThereOrDone(f, s, steps[0], id);
      StillThere(f, Apply(f, s, steps[0]), steps[1..], t, id);
    }
  }

  lemma GoodLasting<K, Op, R>(f: (K, Op) -> (K, R), s: State<K, Op, R>)
    requires Good(f, s)
    ensures Lasting(s)
  {
    hide Inv;
  }

  lemma ThereOrDone<K, Op, R>(f: (K, Op) -> (K, R), s: State<K, Op, R>, step: Step<Op>, id: string)
    requires Lasting(s) && Enabled(s, step) && (id in s.inbox || id in s.executed)
    ensures var t := Apply(f, s, step); id in t.inbox || id in t.executed
  {
    hide Fresh, Enumerates;
  }

  /** No reply is ever written under an empty id. */
  lemma {:induction false} NoEmptyReply<K, Op, R>(f: (K, Op) -> (K, R), k: K, steps: seq<Step<Op>>)
    requires Possible(f, k, steps)
    ensures var s := After(f, k, steps);
      "" !in s.outbox && "" !in s.calls && forall c :: c in s.calls ==> s.calls[c].request.replyTo != Some("")
  {
    hide Enabled, Apply, Inv;
    if steps != [] {
      NoEmptyReply(f, k, steps[..|steps| - 1]);
      Reachable(f, k, steps[..|steps| - 1]);
      InvServer(f, After(f, k, steps[..|steps| - 1]));
      StepNoEmpty(f, After(f, k, steps[..|steps| - 1]), steps[|steps| - 1]);
    }
  }

  lemma InvServer<K, Op, R>(f: (K, Op) -> (K, R), s: State<K, Op, R>)
    requires Inv(f, s)
    ensures ServerInv(s)
  {
    hide ServerInv;
  }

  lemma StepNoEmpty<K, Op, R>(f: (K, Op) -> (K, R), s: State<K, Op, R>, step: Step<Op>)
    requires ServerInv(s) && Enabled(s, step) && "" !in s.outbox && "" !in s.calls
    requires forall c :: c in s.calls ==> s.calls[c].request.replyTo != Some("")
    ensures var t := Apply(f, s, step);
      "" !in t.outbox && "" !in t.calls && forall c :: c in t.calls ==> t.calls[c].request.replyTo != Some("")
  {
    hide Unserved, Pass, Enumerates, Answered;
  }
}
