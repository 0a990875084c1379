/** The runtime lock (buster/runtime.py): a PID file that lets at most one live runtime serve an install. Whole
    acquisitions, closes and recoveries are single steps; removing the file may fail. */
module RuntimeLock {

  /** The lock file: missing, without a readable PID, or naming a process. */
  datatype LockFile = Absent | Unreadable | HeldBy(pid: nat)

  predicate Online(file: LockFile, alive: set<nat>) { file.HeldBy? && file.pid in alive }

  /** Nothing is in the way, or a dead process's file that can be removed. */
  predicate Acquirable(file: LockFile, alive: set<nat>, first: bool) {
    file == Absent || (first && !Online(file, alive))
  }

  /** The file after an acquisition whose two removals succeed or fail; a removal that only succeeds the second time
      comes too late, but it happens. */
  function FileAfter(file: LockFile, pid: nat, alive: set<nat>, first: bool, second: bool): LockFile {
    if Acquirable(file, alive, first) then HeldBy(pid)
    else if second && !Online(file, alive) then Absent
    else file
  }

  class RuntimeLock {
    var file: LockFile

    constructor (file: LockFile)
      ensures this.file == file
    {
      this.file := file;
    }

    /** Create the file exclusively; on finding one, give up if its process lives, else remove it and retry once.
        `first` and `second` say whether the removals succeed. */
    method Acquire(pid: nat, alive: set<nat>, first: bool, second: bool) returns (acquired: bool)
      modifies this
      ensures acquired <==> Acquirable(old(file), alive, first)
      ensures file == FileAfter(old(file), pid, alive, first, second)
    {
      acquired := false;
      var attempt := 0;
      while attempt < 2
        invariant 0 <= attempt <= 2 && !acquired
        invariant attempt == 0 ==> file == old(file)
        invariant attempt > 0 ==> old(file) != Absent && !Online(old(file), alive)
        invariant attempt == 1 ==> file == if first then Absent else old(file)
        invariant attempt == 2 ==> !first && file == if second then Absent else old(file)
      {
        if file == Absent {
          acquired := true;
          break;
        }
        if file.HeldBy? && file.pid in alive { return false; }
        if if attempt == 0 then first else second { file := Absent; }
        attempt := attempt + 1;
      }
      if !acquired { return false; }
      file := HeldBy(pid);
    }

    method Release(removed: bool)
      modifies this
      ensures file == if removed then Absent else old(file)
    {
      if removed { file := Absent; }
    }
  }

  // ---------------------------------------------------------------- every run of every process

  /** The file, the live processes, those serving as the runtime, and whether the file may name a live process that
      does not serve: because a new process got the PID of a stale file, or a runtime closed without removing it. */
  datatype World = World(file: LockFile, alive: set<nat>, servers: set<nat>, misleading: bool)

  datatype Step =
    | Spawn(pid: nat)
    | Start(pid: nat, first: bool, second: bool)
    | Close(pid: nat, removed: bool)
    | Die(pid: nat)
    | Recover(removed: bool)

  /** A step that cannot happen changes nothing. */
  function Apply(w: World, step: Step): World {
    match step
    case Spawn(pid) =>
      if pid in w.alive then w else w.(alive := w.alive + {pid}, misleading := w.misleading || w.file == HeldBy(pid))
    case Start(pid, first, second) =>
      if pid !in w.alive then w
      else
        w.(file := FileAfter(w.file, pid, w.alive, first, second),
           servers := if Acquirable(w.file, w.alive, first) then w.servers + {pid} else w.servers)
    case Close(pid, removed) =>
      if pid !in w.servers then w
      else
        w.(file := if removed then Absent else w.file, servers := w.servers - {pid},
           misleading := w.misleading || !removed)
    case Die(pid) => w.(alive := w.alive - {pid}, servers := w.servers - {pid})
    case Recover(removed) => if !removed || Online(w.file, w.alive) then w else w.(file := Absent)
  }

  function After(file: LockFile, alive: set<nat>, steps: seq<Step>): World {
    if steps == [] then World(file, alive, {}, Online(file, alive))
    else Apply(After(file, alive, steps[..|steps| - 1]), steps[|steps| - 1])
  }

  ghost predicate Inv(w: World) {
    w.servers <= w.alive && (forall p :: p in w.servers ==> w.file == HeldBy(p))
    && (!w.misleading && Online(w.file, w.alive) ==> w.file.pid in w.servers)
  }

  lemma {:induction false} RunInv(file: LockFile, alive: set<nat>, steps: seq<Step>)
    ensures Inv(After(file, alive, steps))
  {
    if steps != [] { RunInv(file, alive, steps[..|steps| - 1]); }
  }

  /** Whatever lock file is found at first, even if PIDs are reused and removals fail, no two processes serve at once,
      and the one that serves is the one the file names. */
  lemma AtMostOneRuntime(file: LockFile, alive: set<nat>, steps: seq<Step>, p: nat, q: nat)
    requires p in After(file, alive, steps).servers && q in After(file, alive, steps).servers
    ensures p == q && After(file, alive, steps).file == HeldBy(p) && p in After(file, alive, steps).alive
  {
    hide After;
    RunInv(file, alive, steps);
  }

  /** `is_online` tells the truth unless the file has come to name a live process that does not serve. */
  lemma OnlineIffServing(file: LockFile, alive: set<nat>, steps: seq<Step>)
    requires !After(file, alive, steps).misleading
    ensures var w := After(file, alive, steps); Online(w.file, w.alive) <==> w.servers != {}
  {
    hide After;
    RunInv(file, alive, steps);
    var w := After(file, alive, steps);
    if w.servers != {} {
      var p :| p in w.servers;
      assert w.file == HeldBy(p);
    }
  }

  /** While a runtime serves, every other start is refused and changes nothing; once it is gone, a start succeeds
      exactly when it left no file or that file can be removed at the first attempt. */
  lemma StartRefusedIffServed(file: LockFile, alive: set<nat>, steps: seq<Step>, pid: nat, first: bool, second: bool)
    requires var w := After(file, alive, steps); !w.misleading && pid in w.alive
    ensures var (w, w') := (After(file, alive, steps), Apply(After(file, alive, steps), Start(pid, first, second)));
      if w.servers != {} then w' == w
      else w'.servers == if w.file == Absent || first then {pid} else {}
  {
    hide After;
    OnlineIffServing(file, alive, steps);
  }

  /** The lock is held exactly when the file names a live process; a missing, unreadable or stale file lets the next
      start through once it is gone. */
  lemma HeldExactly(file: LockFile, alive: set<nat>)
    ensures Online(file, alive) <==> exists p :: p in alive && file == HeldBy(p)
    ensures Acquirable(file, alive, true) <==> forall p :: p in alive ==> file != HeldBy(p)
    ensures Acquirable(file, alive, false) <==> file == Absent
  {
  }

  // ---------------------------------------------------------------- the real lock

  /** Starting a server on the lock is the step `Start`. */
  method StartServer(lock: RuntimeLock, w: World, pid: nat, first: bool, second: bool) returns (started: bool)
    requires lock.file == w.file && pid in w.alive
    modifies lock
    ensures var w' := Apply(w, Start(pid, first, second));
      lock.file == w'.file && w'.servers == if started then w.servers + {pid} else w.servers
  {
    started := lock.Acquire(pid, w.alive, first, second);
  }

  /** And closing it the step `Close`. */
  method CloseServer(lock: RuntimeLock, w: World, pid: nat, removed: bool)
    requires lock.file == w.file && pid in w.servers
    modifies lock
    ensures lock.file == Apply(w, Close(pid, removed)).file
  {
    lock.Release(removed);
  }
}
