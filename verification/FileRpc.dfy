/** The file RPC (buster/runtime.py): clients and one server exchange request and response files. Every visible
    file operation of either side is a step, in any interleaving; operations are one function on a kernel state. */
module FileRpc {
  import opened Text

  /** A request file: its operation and the `id` field the reply is addressed to (`None` when that is empty). */
  datatype Request<Op> = Request(op: Op, replyTo: Option<string>)

  datatype Phase<R> = Begun | TmpWritten | Waiting | Got(response: R) | Returned(result: R, at: nat) | TimedOut

  datatype Call<Op, R> = Call(request: Request<Op>, begunAt: nat, phase: Phase<R>)

  datatype Server<Op, R> =
    | Idle
    | Serving(names: seq<string>)
    | Loaded(source: string, request: Request<Op>, rest: seq<string>)
    | Executed(source: string, replyTo: Option<string>, response: R, rest: seq<string>)
    | ReplyWritten(source: string, target: string, response: R, rest: seq<string>)
    | Replied(source: string, rest: seq<string>)

  /** One execution: the request file, its operation, the response, and when. */
  datatype Entry<Op, R> = Entry(id: string, op: Op, response: R, at: nat)

  /** The kernel, the files and both sides' progress; and, for reasoning, the executions in order and by request
      id, and the ids replies were sent to that belong to no call. */
  datatype State<K, Op, R> = State(
    time: nat,
    initial: K,
    kernel: K,
    calls: map<string, Call<Op, R>>,
    inTmp: map<string, Request<Op>>,
    inbox: map<string, Request<Op>>,
    outbox: map<string, R>,
    server: Server<Op, R>,
    log: seq<Entry<Op, R>>,
    executed: map<string, Entry<Op, R>>,
    foreign: set<string>)

  function Init<K, Op, R>(k: K): State<K, Op, R> {
    State(0, k, k, map[], map[], map[], map[], Idle, [], map[], {})
  }

  /** `names` enumerates a directory in some order. */
  ghost predicate Enumerates(names: seq<string>, files: set<string>) {
    (forall n :: n in names <==> n in files) && forall i, j :: 0 <= i < j < |names| ==> names[i] != names[j]
  }

  /** `override` is an `id` among the caller's own keyword arguments, which replaces the request id. */
  datatype Step<Op> =
    | Begin(id: string, op: Op, override: Option<string>)
    | WriteTmp(id: string)
    | Rename(id: string)
    | Poll(id: string)
    | Collect(id: string)
    | Timeout(id: string)
    | List(names: seq<string>)
    | Load
    | Execute
    | WriteReply
    | RenameReply
    | RemoveRequest

  /** Request ids and job ids are all different (uuid4). */
  predicate Fresh<K, Op, R>(s: State<K, Op, R>, id: string, override: Option<string>) {
    && id != "" && id !in s.calls && id !in s.foreign
    && (override.Some? ==> override.value != id && override.value !in s.calls)
  }

  function ReplyTo(id: string, override: Option<string>): Option<string> {
    match override
    case None => Some(id)
    case Some(x) => if x == "" then None else Some(x)
  }

  ghost predicate Enabled<K, Op, R>(s: State<K, Op, R>, step: Step<Op>) {
    match step
    case Begin(id, _, override) => Fresh(s, id, override)
    case WriteTmp(id) => id in s.calls && s.calls[id].phase.Begun?
    case Rename(id) => id in s.calls && s.calls[id].phase.TmpWritten? && id in s.inTmp
    case Poll(id) => id in s.calls && s.calls[id].phase.Waiting?
    case Collect(id) => id in s.calls && s.calls[id].phase.Got?
    case Timeout(id) => id in s.calls && s.calls[id].phase.Waiting?
    case List(names) => s.server.Idle? && Enumerates(names, s.inbox.Keys)
    case Load => s.server.Serving?
    case Execute => s.server.Loaded?
    case WriteReply => s.server.Executed?
    case RenameReply => s.server.ReplyWritten?
    case RemoveRequest => s.server.Replied?
  }

  function WithPhase<Op, R>(calls: map<string, Call<Op, R>>, id: string, phase: Phase<R>): map<string, Call<Op, R>>
    requires id in calls
  {
    calls[id := calls[id].(phase := phase)]
  }

  // ---------------------------------------------------------------- client steps

  function DoBegin<K, Op, R>(s: State<K, Op, R>, id: string, op: Op, override: Option<string>): State<K, Op, R> {
    s.(time := s.time + 1,
       calls := s.calls[id := Call(Request(op, ReplyTo(id, override)), s.time, Begun)],
       foreign := if override.Some? then s.foreign + {override.value} else s.foreign)
  }

  /** `_atomic_write`, first half: the temporary file, which the server's listing skips. */
  function DoWriteTmp<K, Op, R>(s: State<K, Op, R>, id: string): State<K, Op, R>
    requires id in s.calls
  {
    s.(time := s.time + 1, inTmp := s.inTmp[id := s.calls[id].request], calls := WithPhase(s.calls, id, TmpWritten))
  }

  /** `_atomic_write`, second half: the rename that makes the request visible. */
  function DoRename<K, Op, R>(s: State<K, Op, R>, id: string): State<K, Op, R>
    requires id in s.calls && id in s.inTmp
  {
    s.(time := s.time + 1, inbox := s.inbox[id := s.inTmp[id]], inTmp := s.inTmp - {id},
       calls := WithPhase(s.calls, id, Waiting))
  }

  function DoPoll<K, Op, R>(s: State<K, Op, R>, id: string): State<K, Op, R>
    requires id in s.calls
  {
    s.(time := s.time + 1,
       calls := if id in s.outbox then WithPhase(s.calls, id, Got(s.outbox[id])) else s.calls)
  }

  function DoCollect<K, Op, R>(s: State<K, Op, R>, id: string): State<K, Op, R>
    requires id in s.calls && s.calls[id].phase.Got?
  {
    s.(time := s.time + 1, outbox := s.outbox - {id},
       calls := WithPhase(s.calls, id, Returned(s.calls[id].phase.response, s.time)))
  }

  function DoTimeout<K, Op, R>(s: State<K, Op, R>, id: string): State<K, Op, R>
    requires id in s.calls
  {
    s.(time := s.time + 1, outbox := s.outbox - {id}, calls := WithPhase(s.calls, id, TimedOut))
  }

  // ---------------------------------------------------------------- server steps

  function DoServer<K, Op, R>(s: State<K, Op, R>, server: Server<Op, R>): State<K, Op, R> {
    s.(time := s.time + 1, server := server)
  }

  /** The next name of the pass; a file that is gone reads as no request. */
  function NextServer<K, Op, R>(s: State<K, Op, R>, names: seq<string>): Server<Op, R> {
    if names == [] then Idle
    else if names[0] in s.inbox then Loaded(names[0], s.inbox[names[0]], names[1..])
    else Serving(names[1..])
  }

  function DoExecute<K, Op, R>(f: (K, Op) -> (K, R), s: State<K, Op, R>): State<K, Op, R>
    requires s.server.Loaded?
  {
    var (kernel, response) := f(s.kernel, s.server.request.op);
    var entry := Entry(s.server.source, s.server.request.op, response, s.time);
    s.(time := s.time + 1, kernel := kernel, log := s.log + [entry],
       executed := s.executed[s.server.source := entry],
       server := Executed(s.server.source, s.server.request.replyTo, response, s.server.rest))
  }

  /** A reply is written to a temporary file only when there is an id to address it to. */
  function ReplyServer<Op, R>(server: Server<Op, R>): Server<Op, R>
    requires server.Executed?
  {
    if server.replyTo.Some? then ReplyWritten(server.source, server.replyTo.value, server.response, server.rest)
    else Replied(server.source, server.rest)
  }

  function DoRenameReply<K, Op, R>(s: State<K, Op, R>): State<K, Op, R>
    requires s.server.ReplyWritten?
  {
    s.(time := s.time + 1, outbox := s.outbox[s.server.target := s.server.response],
       server := Replied(s.server.source, s.server.rest))
  }

  function DoRemove<K, Op, R>(s: State<K, Op, R>): State<K, Op, R>
    requires s.server.Replied?
  {
    s.(time := s.time + 1, inbox := s.inbox - {s.server.source}, server := Serving(s.server.rest))
  }

  function Apply<K, Op, R>(f: (K, Op) -> (K, R), s: State<K, Op, R>, step: Step<Op>): State<K, Op, R>
    requires Enabled(s, step)
  {
    match step
    case Begin(id, op, override) => DoBegin(s, id, op, override)
    case WriteTmp(id) => DoWriteTmp(s, id)
    case Rename(id) => DoRename(s, id)
    case Poll(id) => DoPoll(s, id)
    case Collect(id) => DoCollect(s, id)
    case Timeout(id) => DoTimeout(s, id)
    case List(names) => DoServer(s, Serving(names))
    case Load => DoServer(s, NextServer(s, s.server.names))
    case Execute => DoExecute(f, s)
    case WriteReply => DoServer(s, ReplyServer(s.server))
    case RenameReply => DoRenameReply(s)
    case RemoveRequest => DoRemove(s)
  }

  /** The steps can be taken one after the other from empty directories. */
  ghost predicate Possible<K, Op, R>(f: (K, Op) -> (K, R), k: K, steps: seq<Step<Op>>)
    decreases |steps|, 0
  {
    steps == []
    || (Possible(f, k, steps[..|steps| - 1]) && Enabled(After(f, k, steps[..|steps| - 1]), steps[|steps| - 1]))
  }

  ghost function After<K, Op, R>(f: (K, Op) -> (K, R), k: K, steps: seq<Step<Op>>): State<K, Op, R>
    requires Possible(f, k, steps)
    decreases |steps|, 1
  {
    if steps == [] then Init(k) else Apply(f, After(f, k, steps[..|steps| - 1]), steps[|steps| - 1])
  }

  // ---------------------------------------------------------------- sequential meaning of the log

  function Replay<K, Op, R>(f: (K, Op) -> (K, R), k: K, log: seq<Entry<Op, R>>): K {
    if log == [] then k else f(Replay(f, k, log[..|log| - 1]), log[|log| - 1].op).0
  }

  /** Each response is what the operation gives after those before it, one at a time. */
  ghost predicate Sequential<K, Op, R>(f: (K, Op) -> (K, R), k: K, log: seq<Entry<Op, R>>) {
    forall i :: 0 <= i < |log| ==> log[i].response == f(Replay(f, k, log[..i]), log[i].op).1
  }

  /** The request was executed before time `before`, with this response. */
  ghost predicate Answered<Op, R>(executed: map<string, Entry<Op, R>>, id: string, response: R, before: nat) {
    id in executed && executed[id].response == response && executed[id].at < before
  }

  // ---------------------------------------------------------------- the invariant

  ghost predicate LogInv<K, Op, R>(f: (K, Op) -> (K, R), s: State<K, Op, R>) {
    s.kernel == Replay(f, s.initial, s.log) && Sequential(f, s.initial, s.log)
  }

  /** The log lists the executions, each once, in the order of their times. */
  ghost predicate OrderInv<K, Op, R>(s: State<K, Op, R>) {
    && (forall i :: 0 <= i < |s.log| ==> s.log[i].id in s.executed && s.executed[s.log[i].id] == s.log[i])
    && (forall id :: id in s.executed ==> s.executed[id].id == id && s.executed[id] in s.log)
    && (forall i, j :: 0 <= i < j < |s.log| ==> s.log[i].at < s.log[j].at)
  }

  ghost predicate ExecutionInv<K, Op, R>(s: State<K, Op, R>) {
    forall id :: id in s.executed ==>
      id in s.calls && s.executed[id].op == s.calls[id].request.op && s.calls[id].begunAt < s.executed[id].at < s.time
  }

  ghost predicate Visible<R>(phase: Phase<R>) { !phase.Begun? && !phase.TmpWritten? }

  ghost predicate FileInv<K, Op, R>(s: State<K, Op, R>) {
    && (forall id :: id in s.inTmp ==>
          id in s.calls && s.inTmp[id] == s.calls[id].request && s.calls[id].phase.TmpWritten?)
    && (forall id :: id in s.inbox ==>
          id in s.calls && s.inbox[id] == s.calls[id].request && Visible(s.calls[id].phase))
    && (forall id :: id in s.calls && !Visible(s.calls[id].phase) ==> id !in s.executed)
    && (forall id :: id in s.calls ==> s.calls[id].begunAt < s.time)
  }

  /** A request still in the directory has been executed only if the server is just done with it. */
  ghost predicate ServerInv<K, Op, R>(s: State<K, Op, R>) {
    match s.server
    case Idle => Unserved(s, s.inbox.Keys)
    case Serving(names) => Pass(s, names) && Unserved(s, s.inbox.Keys)
    case Loaded(source, request, rest) =>
      Pass(s, rest) && source !in rest && Unserved(s, s.inbox.Keys) && source in s.inbox && request == s.inbox[source]
    case Executed(source, replyTo, response, rest) =>
      Served(s, source, rest) && replyTo == s.calls[source].request.replyTo && Answered(s.executed, source, response, s.time)
    case ReplyWritten(source, target, response, rest) =>
      Served(s, source, rest) && s.calls[source].request.replyTo == Some(target)
      && Answered(s.executed, source, response, s.time)
    case Replied(source, rest) => Served(s, source, rest)
  }

  ghost predicate Unserved<K, Op, R>(s: State<K, Op, R>, ids: set<string>) {
    forall id :: id in ids ==> id !in s.executed
  }

  /** The names left in a pass are distinct requests still in the directory. */
  ghost predicate Pass<K, Op, R>(s: State<K, Op, R>, names: seq<string>) {
    (forall i :: 0 <= i < |names| ==> names[i] in s.inbox)
    && forall i, j :: 0 <= i < j < |names| ==> names[i] != names[j]
  }

  ghost predicate Served<K, Op, R>(s: State<K, Op, R>, source: string, rest: seq<string>) {
    source in s.calls && source in s.inbox && source !in rest && Pass(s, rest) && Unserved(s, s.inbox.Keys - {source})
  }

  /** Replies reach only the call they answer, or no call at all. */
  ghost predicate AddressInv<K, Op, R>(s: State<K, Op, R>) {
    && (forall c :: c in s.calls ==> c !in s.foreign)
    && (forall c :: c in s.calls && s.calls[c].request.replyTo.Some? && s.calls[c].request.replyTo.value != c ==>
          s.calls[c].request.replyTo.value in s.foreign)
  }

  ghost predicate OutboxInv<K, Op, R>(s: State<K, Op, R>) {
    forall x :: x in s.outbox ==>
      x in s.foreign
      || (x in s.calls && s.calls[x].request.replyTo == Some(x) && Answered(s.executed, x, s.outbox[x], s.time))
  }

  ghost predicate ResultInv<K, Op, R>(s: State<K, Op, R>) {
    forall id :: id in s.calls ==> ResultOf(s, id)
  }

  /** What a client has read is the response of its own request, executed before it returned. */
  ghost predicate ResultOf<K, Op, R>(s: State<K, Op, R>, id: string)
    requires id in s.calls
  {
    match s.calls[id].phase
    case Got(r) => s.calls[id].request.replyTo == Some(id) && Answered(s.executed, id, r, s.time)
    case Returned(r, at) => s.calls[id].request.replyTo == Some(id) && Answered(s.executed, id, r, at)
    case _ => true
  }

  ghost predicate Inv<K, Op, R>(f: (K, Op) -> (K, R), s: State<K, Op, R>) {
    LogInv(f, s) && OrderInv(s) && ExecutionInv(s) && FileInv(s) && ServerInv(s)
    && AddressInv(s) && OutboxInv(s) && ResultInv(s)
  }

  // ---------------------------------------------------------------- every step keeps it

  /** Calls only come in, with their requests and start times fixed, and time goes on. */
  ghost predicate Later<K, Op, R>(s: State<K, Op, R>, s': State<K, Op, R>) {
    && s'.time == s.time + 1 && s.foreign <= s'.foreign && s'.initial == s.initial
    && forall id :: id in s.calls ==>
         id in s'.calls && s'.calls[id].request == s.calls[id].request && s'.calls[id].begunAt == s.calls[id].begunAt
  }

  lemma SameLog<K, Op, R>(f: (K, Op) -> (K, R), s: State<K, Op, R>, s': State<K, Op, R>)
    requires LogInv(f, s) && OrderInv(s) && ExecutionInv(s) && Later(s, s')
    requires s'.log == s.log && s'.executed == s.executed && s'.kernel == s.kernel
    ensures LogInv(f, s') && OrderInv(s') && ExecutionInv(s')
  {
  }

  lemma SameServer<K, Op, R>(s: State<K, Op, R>, s': State<K, Op, R>)
    requires ServerInv(s) && Later(s, s')
    requires s'.server == s.server && s'.inbox == s.inbox && s'.executed == s.executed
    ensures ServerInv(s')
  {
  }

  lemma BeginKeeps<K, Op, R>(f: (K, Op) -> (K, R), s: State<K, Op, R>, id: string, op: Op, override: Option<string>)
    requires Inv(f, s) && Fresh(s, id, override)
    ensures Inv(f, DoBegin(s, id, op, override))
  {
    hide LogInv, OrderInv, ExecutionInv, ServerInv, FileInv, AddressInv, OutboxInv, ResultInv;
    var s' := DoBegin(s, id, op, override);
    assert Later(s, s');
    SameLog(f, s, s');
    SameServer(s, s');
    ExecutedCalls(s);
    BeginFiles(s, id, op, override);
    BeginReplies(s, id, op, override);
  }

  lemma BeginFiles<K, Op, R>(s: State<K, Op, R>, id: string, op: Op, override: Option<string>)
    requires FileInv(s) && Fresh(s, id, override) && s.executed.Keys <= s.calls.Keys
    ensures FileInv(DoBegin(s, id, op, override))
  {
  }

  lemma BeginReplies<K, Op, R>(s: State<K, Op, R>, id: string, op: Op, override: Option<string>)
    requires AddressInv(s) && OutboxInv(s) && ResultInv(s) && Fresh(s, id, override)
    ensures var s' := DoBegin(s, id, op, override); AddressInv(s') && OutboxInv(s') && ResultInv(s')
  {
  }

  lemma ExecutedCalls<K, Op, R>(s: State<K, Op, R>)
    requires ExecutionInv(s)
    ensures s.executed.Keys <= s.calls.Keys
  {
  }

  /** A client step changes one call's phase and at most removes a reply. */
  ghost predicate ClientStep<K, Op, R>(s: State<K, Op, R>, s': State<K, Op, R>, id: string) {
    && id in s.calls && id in s'.calls && s'.calls == WithPhase(s.calls, id, s'.calls[id].phase)
    && s'.time == s.time + 1 && s'.initial == s.initial && s'.kernel == s.kernel && s'.log == s.log
    && s'.executed == s.executed && s'.foreign == s.foreign && s'.server == s.server
    && (s'.outbox == s.outbox || s'.outbox == s.outbox - {id})
  }

  lemma ClientKeeps<K, Op, R>(f: (K, Op) -> (K, R), s: State<K, Op, R>, s': State<K, Op, R>, id: string)
    requires Inv(f, s) && ClientStep(s, s', id) && FileInv(s') && ServerInv(s') && ResultOf(s', id)
    ensures Inv(f, s')
  {
    hide LogInv, OrderInv, ExecutionInv, ServerInv, FileInv;
    SameLog(f, s, s');
    assert AddressInv(s');
    assert OutboxInv(s');
    assert ResultInv(s');
  }

  lemma WriteTmpKeeps<K, Op, R>(f: (K, Op) -> (K, R), s: State<K, Op, R>, id: string)
    requires Inv(f, s) && id in s.calls && s.calls[id].phase.Begun?
    ensures Inv(f, DoWriteTmp(s, id))
  {
    hide LogInv, OrderInv, ExecutionInv, ServerInv, AddressInv, OutboxInv, ResultInv, FileInv;
    var s' := DoWriteTmp(s, id);
    SameServer(s, s');
    WriteTmpFiles(s, id);
    ClientKeeps(f, s, s', id);
  }

  lemma WriteTmpFiles<K, Op, R>(s: State<K, Op, R>, id: string)
    requires FileInv(s) && id in s.calls && s.calls[id].phase.Begun?
    ensures FileInv(DoWriteTmp(s, id))
  {
  }

  lemma RenameKeeps<K, Op, R>(f: (K, Op) -> (K, R), s: State<K, Op, R>, id: string)
    requires Inv(f, s) && id in s.inTmp
    ensures Inv(f, DoRename(s, id))
  {
    hide LogInv, OrderInv, ExecutionInv, ServerInv, AddressInv, OutboxInv, ResultInv, FileInv;
    RenameFiles(s, id);
    var s' := DoRename(s, id);
    MoreRequests(s, s', id);
    ClientKeeps(f, s, s', id);
  }

  lemma RenameFiles<K, Op, R>(s: State<K, Op, R>, id: string)
    requires FileInv(s) && id in s.inTmp
    ensures id in s.calls && s.calls[id].phase.TmpWritten? && id !in s.executed && id !in s.inbox
    ensures FileInv(DoRename(s, id))
  {
  }

  lemma MoreRequests<K, Op, R>(s: State<K, Op, R>, s': State<K, Op, R>, id: string)
    requires ServerInv(s) && Later(s, s') && id !in s.executed && id !in s.inbox
    requires s'.server == s.server && s'.executed == s.executed
    requires id in s'.inbox && s'.inbox == s.inbox[id := s'.inbox[id]]
    ensures ServerInv(s')
  {
  }

  /** A call past its rename moves on without touching a request file. */
  lemma SameFiles<K, Op, R>(s: State<K, Op, R>, s': State<K, Op, R>, id: string)
    requires FileInv(s) && ClientStep(s, s', id) && s'.inTmp == s.inTmp && s'.inbox == s.inbox
    requires Visible(s.calls[id].phase) && Visible(s'.calls[id].phase)
    ensures FileInv(s')
  {
  }

  lemma PollKeeps<K, Op, R>(f: (K, Op) -> (K, R), s: State<K, Op, R>, id: string)
    requires Inv(f, s) && id in s.calls && s.calls[id].phase.Waiting?
    ensures Inv(f, DoPoll(s, id))
  {
    hide LogInv, OrderInv, ExecutionInv, ServerInv, AddressInv, OutboxInv, ResultInv, FileInv;
    var s' := DoPoll(s, id);
    SameServer(s, s');
    SameFiles(s, s', id);
    if id in s.outbox { PolledResult(s, id); }
    ClientKeeps(f, s, s', id);
  }

  /** A reply file under a request id answers that request. */
  lemma PolledResult<K, Op, R>(s: State<K, Op, R>, id: string)
    requires AddressInv(s) && OutboxInv(s) && id in s.calls && id in s.outbox
    ensures s.calls[id].request.replyTo == Some(id) && Answered(s.executed, id, s.outbox[id], s.time)
  {
  }

  lemma CollectKeeps<K, Op, R>(f: (K, Op) -> (K, R), s: State<K, Op, R>, id: string)
    requires Inv(f, s) && id in s.calls && s.calls[id].phase.Got?
    ensures Inv(f, DoCollect(s, id))
  {
    hide LogInv, OrderInv, ExecutionInv, ServerInv, AddressInv, OutboxInv, ResultInv, FileInv;
    var s' := DoCollect(s, id);
    SameServer(s, s');
    SameFiles(s, s', id);
    assert ResultOf(s, id) by { ResultAt(s, id); }
    ClientKeeps(f, s, s', id);
  }

  lemma ResultAt<K, Op, R>(s: State<K, Op, R>, id: string)
    requires ResultInv(s) && id in s.calls
    ensures ResultOf(s, id)
  {
  }

  lemma TimeoutKeeps<K, Op, R>(f: (K, Op) -> (K, R), s: State<K, Op, R>, id: string)
    requires Inv(f, s) && id in s.calls && s.calls[id].phase.Waiting?
    ensures Inv(f, DoTimeout(s, id))
  {
    hide LogInv, OrderInv, ExecutionInv, ServerInv, AddressInv, OutboxInv, ResultInv, FileInv;
    var s' := DoTimeout(s, id);
    SameServer(s, s');
    SameFiles(s, s', id);
    ClientKeeps(f, s, s', id);
  }

  /** A server step that touches no file keeps all but the server's own invariant. */
  lemma ServerOnly<K, Op, R>(f: (K, Op) -> (K, R), s: State<K, Op, R>, server: Server<Op, R>)
    requires Inv(f, s) && ServerInv(DoServer(s, server))
    ensures Inv(f, DoServer(s, server))
  {
    hide LogInv, OrderInv, ExecutionInv, ServerInv;
    SameLog(f, s, DoServer(s, server));
  }

  lemma ListKeeps<K, Op, R>(f: (K, Op) -> (K, R), s: State<K, Op, R>, names: seq<string>)
    requires Inv(f, s) && s.server.Idle? && Enumerates(names, s.inbox.Keys)
    ensures Inv(f, DoServer(s, Serving(names)))
  {
    hide LogInv, OrderInv, ExecutionInv, FileInv, OutboxInv, AddressInv, ResultInv;
    ServerOnly(f, s, Serving(names));
  }

  lemma LoadKeeps<K, Op, R>(f: (K, Op) -> (K, R), s: State<K, Op, R>)
    requires Inv(f, s) && s.server.Serving?
    ensures Inv(f, DoServer(s, NextServer(s, s.server.names)))
  {
    hide LogInv, OrderInv, ExecutionInv, FileInv, OutboxInv, AddressInv, ResultInv;
    ServerOnly(f, s, NextServer(s, s.server.names));
  }

  lemma WriteReplyKeeps<K, Op, R>(f: (K, Op) -> (K, R), s: State<K, Op, R>)
    requires Inv(f, s) && s.server.Executed?
    ensures Inv(f, DoServer(s, ReplyServer(s.server)))
  {
    hide LogInv, OrderInv, ExecutionInv, FileInv, OutboxInv, AddressInv, ResultInv;
    ServerOnly(f, s, ReplyServer(s.server));
  }

  lemma RenameReplyKeeps<K, Op, R>(f: (K, Op) -> (K, R), s: State<K, Op, R>)
    requires Inv(f, s) && s.server.ReplyWritten?
    ensures Inv(f, DoRenameReply(s))
  {
    hide LogInv, OrderInv, ExecutionInv, FileInv, ResultInv;
    var s' := DoRenameReply(s);
    SameLog(f, s, s');
    LaterResults(s, s');
  }

  /** Time going on keeps what the clients and the request files hold. */
  lemma LaterResults<K, Op, R>(s: State<K, Op, R>, s': State<K, Op, R>)
    requires FileInv(s) && ResultInv(s) && s'.calls == s.calls && s'.executed == s.executed && s'.time == s.time + 1
    requires s'.inTmp == s.inTmp && s'.inbox.Keys <= s.inbox.Keys && forall id :: id in s'.inbox ==> s'.inbox[id] == s.inbox[id]
    ensures FileInv(s') && ResultInv(s')
  {
  }

  lemma RemoveKeeps<K, Op, R>(f: (K, Op) -> (K, R), s: State<K, Op, R>)
    requires Inv(f, s) && s.server.Replied?
    ensures Inv(f, DoRemove(s))
  {
    hide LogInv, OrderInv, ExecutionInv, FileInv, ResultInv;
    var s' := DoRemove(s);
    SameLog(f, s, s');
    LaterResults(s, s');
  }

  lemma ExecuteKeeps<K, Op, R>(f: (K, Op) -> (K, R), s: State<K, Op, R>)
    requires Inv(f, s) && s.server.Loaded?
    ensures Inv(f, DoExecute(f, s))
  {
    hide LogInv, OrderInv, ResultInv, FileInv, ExecutionInv, OutboxInv, AddressInv;
    ExecuteLog(f, s, s.server.source, s.server.request);
    ExecuteCalls(f, s);
    ExecuteReplies(f, s);
  }

  lemma ExecuteCalls<K, Op, R>(f: (K, Op) -> (K, R), s: State<K, Op, R>)
    requires FileInv(s) && ExecutionInv(s) && ServerInv(s) && s.server.Loaded?
    ensures FileInv(DoExecute(f, s)) && ExecutionInv(DoExecute(f, s))
    ensures s.server.source in s.calls && s.calls[s.server.source].request == s.server.request
  {
  }

  lemma ExecuteReplies<K, Op, R>(f: (K, Op) -> (K, R), s: State<K, Op, R>)
    requires AddressInv(s) && OutboxInv(s) && ResultInv(s) && s.server.Loaded? && s.server.source !in s.executed
    ensures var s' := DoExecute(f, s); AddressInv(s') && OutboxInv(s') && ResultInv(s')
  {
  }

  lemma ExecuteLog<K, Op, R>(f: (K, Op) -> (K, R), s: State<K, Op, R>, source: string, request: Request<Op>)
    requires LogInv(f, s) && OrderInv(s) && ExecutionInv(s) && source !in s.executed
    requires s.server.Loaded? && s.server.source == source && s.server.request == request
    ensures LogInv(f, DoExecute(f, s)) && OrderInv(DoExecute(f, s))
  {
    var s' := DoExecute(f, s);
    var e := s'.executed[source];
    assert s'.log == s.log + [e] && s'.log[|s.log|] == e;
    ReplayMore(f, s.initial, s.log, e);
    OrderMore(s, s', e);
  }

  lemma ReplayMore<K, Op, R>(f: (K, Op) -> (K, R), k: K, log: seq<Entry<Op, R>>, e: Entry<Op, R>)
    requires Sequential(f, k, log) && e.response == f(Replay(f, k, log), e.op).1
    ensures Sequential(f, k, log + [e]) && Replay(f, k, log + [e]) == f(Replay(f, k, log), e.op).0
  {
    var log' := log + [e];
    assert log'[..|log|] == log;
    assert forall i :: 0 <= i < |log| ==> log'[..i] == log[..i] && log'[i] == log[i];
  }

  lemma OrderMore<K, Op, R>(s: State<K, Op, R>, s': State<K, Op, R>, e: Entry<Op, R>)
    requires OrderInv(s) && ExecutionInv(s) && e.id !in s.executed && e.at == s.time
    requires s'.log == s.log + [e] && s'.executed == s.executed[e.id := e]
    ensures OrderInv(s')
  {
    assert s'.log[|s.log|] == e;
    forall id | id in s'.executed ensures s'.executed[id].id == id && s'.executed[id] in s'.log {
      if id != e.id { assert s.executed[id] in s.log; }
    }
  }

  /** Every step of either side keeps the invariant. */
  lemma StepKeeps<K, Op, R>(f: (K, Op) -> (K, R), s: State<K, Op, R>, step: Step<Op>)
    requires Inv(f, s) && Enabled(s, step)
    ensures Inv(f, Apply(f, s, step))
  {
    hide Inv, Fresh, Enumerates;
    match step
    case Begin(id, op, override) => BeginKeeps(f, s, id, op, override);
    case WriteTmp(id) => WriteTmpKeeps(f, s, id);
    case Rename(id) => RenameKeeps(f, s, id);
    case Poll(id) => PollKeeps(f, s, id);
    case Collect(id) => CollectKeeps(f, s, id);
    case Timeout(id) => TimeoutKeeps(f, s, id);
    case List(names) => ListKeeps(f, s, names);
    case Load => LoadKeeps(f, s);
    case Execute => ExecuteKeeps(f, s);
    case WriteReply => WriteReplyKeeps(f, s);
    case RenameReply => RenameReplyKeeps(f, s);
    case RemoveRequest => RemoveKeeps(f, s);
  }

  lemma {:induction false} Reachable<K, Op, R>(f: (K, Op) -> (K, R), k: K, steps: seq<Step<Op>>)
    requires Possible(f, k, steps)
    ensures Inv(f, After(f, k, steps)) && After(f, k, steps).initial == k
  {
    hide Enabled, Apply, Inv;
    if steps == [] {
      InitInv(f, k);
    } else {
      var last := steps[|steps| - 1];
      Reachable(f, k, steps[..|steps| - 1]);
      StepKeeps(f, After(f, k, steps[..|steps| - 1]), last);
      SameInitial(f, After(f, k, steps[..|steps| - 1]), last);
    }
  }

  lemma InitInv<K, Op, R>(f: (K, Op) -> (K, R), k: K)
    ensures Inv(f, Init<K, Op, R>(k))
  {
  }

  lemma SameInitial<K, Op, R>(f: (K, Op) -> (K, R), s: State<K, Op, R>, step: Step<Op>)
    requires Enabled(s, step)
    ensures Apply(f, s, step).initial == s.initial
  {
  }
}
