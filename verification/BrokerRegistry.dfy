/**
The state every cap-broker handler shares: the launch semaphore and the run
registry. The value-level operations here are the ones the concurrent model
steps through; class Server is the broker's own imperative form of them, with
entries as heap objects compared by identity.

Sources: cmd/capbroker/server.go and cmd/capbroker/runlaunch_linux.go.
*/
module BrokerRegistry {
  import opened Wrappers

  type ContainerId = string

  const SIDECAR_SUFFIX := "-sc"

  /** The ids launch validation admits for a sidecar. */
  predicate IsSidecarId(cid: ContainerId) {
    |cid| >= |SIDECAR_SUFFIX| && cid[|cid| - |SIDECAR_SUFFIX|..] == SIDECAR_SUFFIX
  }

  // ------------------------------------------------------------------
  // The launch semaphore: a buffered channel of capacity cap
  // ------------------------------------------------------------------

  datatype Semaphore = Semaphore(used: nat, cap: nat)

  predicate HasRoom(sem: Semaphore) {
    sem.used < sem.cap
  }

  function Acquire(sem: Semaphore): Semaphore {
    sem.(used := sem.used + 1)
  }

  /** A release on an empty channel takes the default branch and changes nothing. */
  function Release(sem: Semaphore): Semaphore {
    if sem.used > 0 then sem.(used := sem.used - 1) else sem
  }

  // ------------------------------------------------------------------
  // The registry
  // ------------------------------------------------------------------

  function Put<E>(runs: map<ContainerId, E>, cid: ContainerId, entry: E): map<ContainerId, E> {
    runs[cid := entry]
  }

  /** forgetRun: drop cid's entry if it is still this one. */
  function Forget<E(==)>(runs: map<ContainerId, E>, cid: ContainerId, entry: E): map<ContainerId, E> {
    if cid in runs && runs[cid] == entry then runs - {cid} else runs
  }

  // ------------------------------------------------------------------
  // Exit records
  // ------------------------------------------------------------------

  /** What a child's run cost, as the cgroup reported it. */
  datatype Actuals = Actuals(peakMemMB: Option<int>, cpuUsec: Option<int>)

  /** How a child ended: what rt.Wait(), rt.Actuals() and rt.StderrTail() yield. */
  datatype Exit = Exit(oom: bool, actuals: Actuals, stderrTail: string, waitErr: Option<string>)

  /** waitRunResult, the reply of WaitRun. */
  datatype WaitResult = WaitResult(exitError: string, oomKilled: bool, peakMemMB: Option<int>, cpuUsec: Option<int>, stderrTail: string)

  /**
  What a wait has to report about a child that ended as x: everything for a
  jail; for a sidecar, which has no cgroup, only the error and the OOM flag.
  */
  function FullReport(jailed: bool, x: Exit): WaitResult {
    WaitResult(
      if x.waitErr.Some? then x.waitErr.value else "",
      x.oom,
      if jailed then x.actuals.peakMemMB else None,
      if jailed then x.actuals.cpuUsec else None,
      if jailed then x.stderrTail else "")
  }

  // ------------------------------------------------------------------
  // The broker's objects
  // ------------------------------------------------------------------

  /** runEntry: one supervised child's record, published by closing done. */
  class RunEntry {
    var oom: bool
    var actuals: Actuals
    var stderrTail: string
    var waitErr: Option<string>
    var done: bool

    constructor ()
      ensures !done && Result() == WaitResult("", false, None, None, "")
    {
      oom, actuals, stderrTail, waitErr, done := false, Actuals(None, None), "", None, false;
    }

    /** The reply waitRun reads off the entry. */
    function Result(): WaitResult
      reads this
    {
      WaitResult(if waitErr.Some? then waitErr.value else "", oom, actuals.peakMemMB, actuals.cpuUsec, stderrTail)
    }

    /** The body of a jail's supervising goroutine once rt.Wait() has returned x. */
    method RecordJail(x: Exit)
      requires !done
      modifies this
      ensures done && Result() == FullReport(true, x)
    {
      oom := x.oom;
      actuals := x.actuals;
      stderrTail := x.stderrTail;
      waitErr := x.waitErr;
      done := true;
    }

    /** The body of a sidecar's: it reads no actuals and no stderr tail. */
    method RecordSidecar(x: Exit)
      requires !done && Result() == WaitResult("", false, None, None, "")
      modifies this
      ensures done && Result() == FullReport(false, x)
    {
      oom := x.oom;
      waitErr := x.waitErr;
      done := true;
    }
  }

  /** The part of Server the handlers share; each method is one hold of its lock or one channel operation. */
  class Server {
    var sem: Semaphore
    var closed: bool
    var runs: map<ContainerId, RunEntry>

    constructor (maxInflightLaunches: nat)
      ensures sem == Semaphore(0, maxInflightLaunches) && !closed && runs == map[]
    {
      sem, closed, runs := Semaphore(0, maxInflightLaunches), false, map[];
    }

    /**
    The select of acquireLaunchSlot once a case is ready. With several ready it
    may take any, which preferSlot decides.
    */
    method AcquireLaunchSlot(callEnded: bool, preferSlot: bool) returns (taken: bool)
      requires HasRoom(sem) || callEnded || closed
      modifies `sem
      ensures taken ==> HasRoom(old(sem)) && sem == Acquire(old(sem))
      ensures !taken ==> sem == old(sem) && (callEnded || closed)
      ensures old(sem.used <= sem.cap) ==> sem.used <= sem.cap
    {
      taken := HasRoom(sem) && (preferSlot || !(callEnded || closed));
      if taken {
        sem := sem.(used := sem.used + 1);
      }
    }

    method ReleaseLaunchSlot()
      modifies `sem
      ensures sem == Release(old(sem))
      ensures old(sem.used) > 0 ==> Acquire(sem) == old(sem)
    {
      if sem.used > 0 {
        sem := sem.(used := sem.used - 1);
      }
    }

    method Lookup(cid: ContainerId) returns (entry: RunEntry?)
      ensures entry == if cid in runs then runs[cid] else null
    {
      entry := null;
      if cid in runs {
        entry := runs[cid];
      }
    }

    /** launchRun's registration: it replaces whatever the id named. */
    method Register(cid: ContainerId, entry: RunEntry)
      modifies `runs
      ensures runs == Put(old(runs), cid, entry)
    {
      runs := runs[cid := entry];
    }

    /** launchSidecar's: check and insert under one hold of the lock. */
    method RegisterSidecar(cid: ContainerId, entry: RunEntry) returns (taken: bool)
      modifies `runs
      ensures taken == (cid in old(runs))
      ensures runs == if taken then old(runs) else Put(old(runs), cid, entry)
      ensures forall k :: k in old(runs) ==> k in runs && runs[k] == old(runs)[k]
    {
      taken := cid in runs;
      if !taken {
        runs := runs[cid := entry];
      }
    }

    /** Entries are compared by identity, so a successor under the same id survives. */
    method ForgetRun(cid: ContainerId, entry: RunEntry)
      modifies `runs
      ensures runs == Forget(old(runs), cid, entry)
      ensures forall k :: k in old(runs) && old(runs)[k] != entry ==> k in runs && runs[k] == old(runs)[k]
      ensures !(cid in runs && runs[cid] == entry)
    {
      if cid in runs && runs[cid] == entry {
        runs := runs - {cid};
      }
    }

    /** Shutdown's flag: it is raised once and never lowered. */
    method Shutdown() returns (first: bool)
      modifies `closed
      ensures closed && first == !old(closed)
    {
      first := !closed;
      closed := true;
    }
  }
}
