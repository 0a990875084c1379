/** The server's side of the file RPC as a class (buster/runtime.py): one pass over the request directory, with
    no client step in between. */
module RuntimeServer {
  import opened Text
  import opened FileRpc

  class RuntimeServer<K, Op, R> {
    const operate: (K, Op) -> (K, R)
    var kernel: K
    var inbox: map<string, Request<Op>>
    var outbox: map<string, R>
    ghost var model: State<K, Op, R>

    ghost predicate Valid()
      reads this
    {
      Inv(operate, model) && model.kernel == kernel && model.inbox == inbox && model.outbox == outbox
    }

    constructor (operate: (K, Op) -> (K, R), kernel: K)
      ensures Valid() && this.operate == operate && model == Init(kernel)
    {
      this.operate, this.kernel, inbox, outbox := operate, kernel, map[], map[];
      model := Init(kernel);
      InitInv(operate, kernel);
    }

    /** Execute one request, write its reply and remove the request file. */
    method Dispatch(source: string, request: Request<Op>)
      requires Valid() && model.server.Loaded? && model.server.source == source && model.server.request == request
      modifies this
      ensures Valid() && model.server == Serving(old(model).server.rest)
      ensures kernel == operate(old(kernel), request.op).0
      ensures inbox == old(inbox) - {source}
      ensures outbox == if request.replyTo.Some? then old(outbox)[request.replyTo.value := operate(old(kernel), request.op).1]
                        else old(outbox)
      ensures Executions(old(model).log, model.log, [source])
    {
      hide Inv, Executions;
      DispatchedKeeps(operate, model);
      DispatchedOnce(operate, model);
      var (next, response) := operate(kernel, request.op);
      kernel := next;
      if request.replyTo.Some? {
        outbox := outbox[request.replyTo.value := response];
      }
      inbox := inbox - {source};
      model := Dispatched(operate, model);
    }

    /** Read the next listed request and dispatch it. */
    method ServeNext(names: seq<string>)
      requires Valid() && model.server == Serving(names) && names != [] && names[0] in inbox
      modifies this
      ensures Valid() && model.server == Serving(names[1..])
      ensures (kernel, outbox) == ServedOne(operate, old(kernel), old(outbox), old(inbox)[names[0]])
      ensures inbox == old(inbox) - {names[0]}
      ensures Executions(old(model).log, model.log, [names[0]])
    {
      hide Inv, Executions;
      var request := inbox[names[0]];
      StepKeeps(operate, model, Load);
      model := DoServer(model, NextServer(model, names));
      Dispatch(names[0], request);
    }

    /** One pass over a listing of the directory: every request in it is executed once, in listing order, each leaves
        its reply, and the directory is left empty. */
    method ProcessPending(names: seq<string>)
      requires Valid() && model.server.Idle? && Enumerates(names, inbox.Keys)
      modifies this
      ensures Valid() && model.server.Idle? && inbox == map[]
      ensures (kernel, outbox) == AllServed(operate, old(kernel), old(outbox), old(inbox), names)
      ensures Executions(old(model).log, model.log, names)
    {
      hide Inv, Executions, ServedOne, AllServed;
      StepKeeps(operate, model, List(names));
      model := DoServer(model, Serving(names));
      ghost var (log, kernel0, outbox0, inbox0) := (model.log, kernel, outbox, inbox);
      var i := 0;
      NoExecutions(log, names);
      NothingServed(operate, kernel, outbox, inbox, names);
      while i < |names|
        invariant 0 <= i <= |names|
        invariant Valid() && model.server == Serving(names[i..])
        invariant inbox == inbox0 - NameSet(names[..i])
        invariant (kernel, outbox) == AllServed(operate, kernel0, outbox0, inbox0, names[..i])
        invariant Executions(log, model.log, names[..i])
      {
        assert names[i..][0] == names[i] && names[i..][1..] == names[i + 1..];
        RemainingNames(names, i);
        ghost var before := model.log;
        ServeNext(names[i..]);
        MoreExecutions(log, before, model.log, names, i);
        MoreServed(operate, kernel0, outbox0, inbox0, names, i);
        i := i + 1;
      }
      assert names[..i] == names;
      StepKeeps(operate, model, Load);
      model := DoServer(model, NextServer(model, names[i..]));
    }
  }

  function NameSet(names: seq<string>): set<string> { set n | n in names }

  /** The kernel and the replies after one request. */
  function ServedOne<K, Op, R>(f: (K, Op) -> (K, R), k: K, outbox: map<string, R>, request: Request<Op>): (K, map<string, R>) {
    var (next, response) := f(k, request.op);
    (next, if request.replyTo.Some? then outbox[request.replyTo.value := response] else outbox)
  }

  /** The kernel and the replies after the requests of the given names, one after the other. */
  function AllServed<K, Op, R>(f: (K, Op) -> (K, R), k: K, outbox: map<string, R>, inbox: map<string, Request<Op>>,
                            names: seq<string>): (K, map<string, R>)
    requires forall n :: n in names ==> n in inbox
  {
    if names == [] then (k, outbox)
    else
      var (k', outbox') := AllServed(f, k, outbox, inbox, names[..|names| - 1]);
      ServedOne(f, k', outbox', inbox[names[|names| - 1]])
  }

  lemma NothingServed<K, Op, R>(f: (K, Op) -> (K, R), k: K, outbox: map<string, R>, inbox: map<string, Request<Op>>,
                                names: seq<string>)
    requires forall n :: n in names ==> n in inbox
    ensures AllServed(f, k, outbox, inbox, names[..0]) == (k, outbox) && inbox - NameSet(names[..0]) == inbox
  {
  }

  lemma MoreServed<K, Op, R>(f: (K, Op) -> (K, R), k: K, outbox: map<string, R>, inbox: map<string, Request<Op>>,
                             names: seq<string>, i: nat)
    requires i < |names| && forall n :: n in names ==> n in inbox
    ensures var (k', outbox') := AllServed(f, k, outbox, inbox, names[..i]);
      AllServed(f, k, outbox, inbox, names[..i + 1]) == ServedOne(f, k', outbox', inbox[names[i]])
    ensures (inbox - NameSet(names[..i])) - {names[i]} == inbox - NameSet(names[..i + 1])
  {
    assert names[..i + 1][..i] == names[..i] && names[..i + 1][i] == names[i];
    assert names[..i + 1] == names[..i] + [names[i]];
  }

  /** When every request of a pass is addressed to its own id, each finds there the response of its own operation on
      the kernel that the requests in front of it left. */
  lemma {:induction false} OwnReplies<K, Op, R>(f: (K, Op) -> (K, R), k: K, outbox: map<string, R>,
                                                inbox: map<string, Request<Op>>, names: seq<string>, i: nat)
    requires i < |names| && (forall n :: n in names ==> n in inbox && inbox[n].replyTo == Some(n))
    requires forall a, b :: 0 <= a < b < |names| ==> names[a] != names[b]
    ensures var replies := AllServed(f, k, outbox, inbox, names).1;
      names[i] in replies
      && replies[names[i]] == f(AllServed(f, k, outbox, inbox, names[..i]).0, inbox[names[i]].op).1
  {
    var (init, last) := (names[..|names| - 1], names[|names| - 1]);
    if i < |init| {
      OwnReplies(f, k, outbox, inbox, init, i);
      assert init[..i] == names[..i];
    }
  }

  /** The steps of one dispatch: execute, write the reply, publish it if it has an address, remove the request. */
  function Dispatched<K, Op, R>(f: (K, Op) -> (K, R), s: State<K, Op, R>): State<K, Op, R>
    requires s.server.Loaded?
  {
    var executed := DoExecute(f, s);
    var written := DoServer(executed, ReplyServer(executed.server));
    DoRemove(if written.server.ReplyWritten? then DoRenameReply(written) else written)
  }

  lemma DispatchedKeeps<K, Op, R>(f: (K, Op) -> (K, R), s: State<K, Op, R>)
    requires Inv(f, s) && s.server.Loaded?
    ensures Inv(f, Dispatched(f, s))
  {
    hide Inv;
    var executed := DoExecute(f, s);
    var written := DoServer(executed, ReplyServer(executed.server));
    ExecuteKeeps(f, s);
    WriteReplyKeeps(f, executed);
    if written.server.ReplyWritten? {
      RenameReplyKeeps(f, written);
      RemoveKeeps(f, DoRenameReply(written));
    } else {
      RemoveKeeps(f, written);
    }
  }

  lemma DispatchedOnce<K, Op, R>(f: (K, Op) -> (K, R), s: State<K, Op, R>)
    requires s.server.Loaded?
    ensures Executions(s.log, Dispatched(f, s).log, [s.server.source])
  {
  }

  /** `after` is `before` followed by one execution for each name, in order. */
  ghost predicate Executions<Op, R>(before: seq<Entry<Op, R>>, after: seq<Entry<Op, R>>, names: seq<string>) {
    |after| == |before| + |names| && after[..|before|] == before
    && forall i :: 0 <= i < |names| ==> after[|before| + i].id == names[i]
  }

  lemma NoExecutions<Op, R>(log: seq<Entry<Op, R>>, names: seq<string>)
    ensures Executions(log, log, names[..0]) && names[0..] == names
  {
    assert log[..|log|] == log;
  }

  lemma MoreExecutions<Op, R>(log: seq<Entry<Op, R>>, mid: seq<Entry<Op, R>>, after: seq<Entry<Op, R>>,
                              names: seq<string>, i: nat)
    requires i < |names| && Executions(log, mid, names[..i]) && Executions(mid, after, [names[i]])
    ensures Executions(log, after, names[..i + 1])
  {
    assert after[|mid| + 0].id == [names[i]][0] == names[i];
    forall j | 0 <= j < |mid| ensures after[j] == mid[j] { assert after[..|mid|][j] == mid[j]; }
    assert after[..|log|] == mid[..|log|];
  }

  lemma RemainingNames(names: seq<string>, i: nat)
    requires i < |names| && forall a, b :: 0 <= a < b < |names| ==> names[a] != names[b]
    ensures names[i] !in names[i + 1..] && forall n :: n in names[i..] <==> n == names[i] || n in names[i + 1..]
  {
    assert names[i..] == [names[i]] + names[i + 1..];
  }
}
