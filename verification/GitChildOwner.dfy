/**
 The owner of a Git child process: from suspended creation to closing every handle.
 Each kernel call may fail; what the owner must respect stands as preconditions of the kernel's methods.
 */
module GitChildOwner {
  import opened Bytes

  datatype Error = CallFailed(call: Call) | ReadFailed(pipe: nat) | TimedOut | UnexpectedStatus(status: int)
                 | StillActive | ChildFailed(code: int) | ActiveCountNotZero | ReaderOutlived

  datatype Call = CreateJob | CreateStdio | CreateSuspended | Assign | Resume | ExitCode | Active | Terminate | Cancel | Close

  datatype Status = Signaled | Timeout | Other(code: int)

  datatype ReaderState = Running | Done(output: bytes) | Died(error: Error)

  datatype Reader = Reader(pipe: nat, state: ReaderState)

  /** The pipe each reader reads. */
  function PipesOf(readers: seq<Reader>): seq<nat> {
    seq(|readers|, i requires 0 <= i < |readers| => readers[i].pipe)
  }

  /** The readers keep their pipes, and once all have ended they stay as they ended. */
  ghost predicate Later(before: seq<Reader>, after: seq<Reader>) {
    PipesOf(before) == PipesOf(after) && |before| == |after| && (AllEnded(before) ==> after == before)
  }

  predicate AllEnded(readers: seq<Reader>) {
    forall i :: 0 <= i < |readers| ==> !readers[i].state.Running?
  }

  predicate AllDone(readers: seq<Reader>) {
    forall i :: 0 <= i < |readers| ==> readers[i].state.Done?
  }

  predicate AnyDied(readers: seq<Reader>) {
    exists i :: 0 <= i < |readers| && readers[i].state.Died?
  }

  predicate NoDuplicates<T(==)>(s: seq<T>) {
    forall i, j :: 0 <= i < j < |s| ==> s[i] != s[j]
  }

  /** What waiting for the child may raise by itself. */
  predicate IsWaitError(e: Error) {
    e == TimedOut || e.UnexpectedStatus?
  }

  /** What proving that nothing in the Job is active may raise. */
  predicate IsCountError(e: Error) {
    e == ActiveCountNotZero || e == CallFailed(Active)
  }

  /** Raised only at a deadline. */
  predicate OutOfTime(e: Error) {
    e == TimedOut || e == ActiveCountNotZero
  }

  predicate AnyWaitError(errors: seq<Error>) {
    exists e :: e in errors && IsWaitError(e)
  }

  predicate AnyCountError(errors: seq<Error>) {
    exists e :: e in errors && IsCountError(e)
  }

  predicate AnyOutOfTime(errors: seq<Error>) {
    exists e :: e in errors && OutOfTime(e)
  }

  /** The exceptions known after a call that may have raised one more. */
  function Noting(errors: seq<Error>, failure: Option<Error>): seq<Error> {
    if failure.Some? then errors + [failure.value] else errors
  }

  lemma NotingAssociates(base: seq<Error>, errors: seq<Error>, failure: Option<Error>)
    ensures base + Noting(errors, failure) == Noting(base + errors, failure)
  {
  }

  /** The kernel and the reader threads, as one run sees them. */
  class Kernel {
    var issued: set<nat>        // every handle handed to the owner
    var attempts: seq<nat>      // the handles whose closing was attempted, in order
    var readers: seq<Reader>
    var readErrors: seq<Error>  // what the readers recorded, first one first
    var raised: seq<Error>      // every exception raised inside the run, in order
    var exit: Option<int>
    var active: Option<nat>     // the last active-process count
    var owned: Option<nat>      // the process in the Job Object
    var resumed: bool           // whether the child was let run
    var terminations: nat       // attempts to terminate the child
    var target: Option<nat>     // what the last of them was to end
    var status: Option<Status>  // what the last wait returned
    var cancels: set<nat>       // the pipes whose pending read was asked to stop
    var clock: nat              // milliseconds

    /** No handle is closed twice, none is closed that was not handed out, and the readers' errors are theirs. */
    ghost predicate Valid()
      reads this
    {
      && 0 !in issued
      && NoDuplicates(attempts) && (forall h :: h in attempts ==> h in issued)
      && (readErrors != [] <==> AnyDied(readers)) && forall e :: e in readErrors ==> e.ReadFailed?
    }

    predicate Open(h: nat)
      reads this
    {
      h in issued && h !in attempts
    }

    constructor ()
      ensures Valid() && issued == {} && attempts == [] && readers == [] && raised == []
      ensures exit == None && active == None && owned == None && terminations == 0 && cancels == {} && target == None
    {
      issued, attempts, readers, readErrors, raised := {}, [], [], [], [];
      exit, active, owned, terminations, cancels, target, status, resumed := None, None, None, 0, {}, None, None, false;
      clock := 0;
    }

    /** Any running reader may end while the owner does something else. */
    method Tick()
      requires Valid()
      modifies `readers, `readErrors
      ensures Valid() && Later(old(readers), readers) && old(readErrors) <= readErrors
    {
      hide NoDuplicates;
      for i := 0 to |readers|
        invariant Valid() && Later(old(readers), readers) && old(readErrors) <= readErrors
      {
        var ends: bool, dies: bool := *, *;
        if ends && readers[i].state.Running? {
          var output: bytes := *;
          var error := ReadFailed(readers[i].pipe);
          var state := if dies then Died(error) else Done(output);
          EndOne(readers, i, state);
          if dies {
            readErrors := readErrors + [error];
          }
          readers := readers[i := readers[i].(state := state)];
        }
      }
    }

    method Raise(e: Error)
      modifies `raised
      ensures raised == old(raised) + [e]
    {
      raised := raised + [e];
    }

    /** A call that either succeeds or raises. */
    method Try(call: Call) returns (failure: Option<Error>)
      requires Valid()
      modifies `readers, `readErrors, `raised
      ensures Valid() && Later(old(readers), readers)
      ensures raised == Noting(old(raised), failure) && (failure.Some? ==> failure == Some(CallFailed(call)))
    {
      Tick();
      var ok: bool := *;
      if ok {
        return None;
      }
      Raise(CallFailed(call));
      return Some(CallFailed(call));
    }

    /** `count` handles never handed out before. */
    method Issue(count: nat) returns (handles: seq<nat>)
      requires Valid()
      modifies `issued
      ensures Valid() && |handles| == count && NoDuplicates(handles)
      ensures forall h :: h in handles ==> h != 0 && h !in old(issued)
      ensures issued == old(issued) + (set h | h in handles)
    {
      handles := [];
      for i := 0 to count
        invariant Valid() && |handles| == i && NoDuplicates(handles)
        invariant forall h :: h in handles ==> h != 0 && h !in old(issued)
        invariant issued == old(issued) + (set h | h in handles)
      {
        FreshExists(issued);
        var h: nat :| h != 0 && h !in issued;
        handles := handles + [h];
        issued := issued + {h};
      }
    }

    /** Only a Job-owned child runs, and only after the parent closed its own copies of what the child inherited. */
    method ResumeThread(thread: nat, process: nat, ghost inherited: seq<nat>) returns (failure: Option<Error>)
      requires Valid() && Open(thread) && Open(process) && owned == Some(process)
      requires forall h :: h in inherited && h != 0 ==> h in attempts
      modifies `readers, `readErrors, `raised, `resumed
      ensures Valid() && Later(old(readers), readers)
      ensures raised == Noting(old(raised), failure) && (failure.Some? ==> failure.value == CallFailed(Resume))
      ensures resumed == (old(resumed) || failure.None?)
    {
      failure := Try(Resume);
      resumed := resumed || failure.None?;
    }

    method AssignToJob(job: nat, process: nat) returns (failure: Option<Error>)
      requires Valid() && Open(job) && Open(process)
      modifies `readers, `readErrors, `raised, `owned
      ensures Valid() && Later(old(readers), readers)
      ensures raised == Noting(old(raised), failure) && (failure.Some? ==> failure.value == CallFailed(Assign))
      ensures failure.None? ==> owned == Some(process)
      ensures failure.Some? ==> owned == old(owned)
    {
      failure := Try(Assign);
      if failure.None? {
        owned := Some(process);
      }
    }

    method TerminateChild(h: nat) returns (failure: Option<Error>)
      requires Valid() && Open(h)
      modifies `readers, `readErrors, `raised, `terminations, `target
      ensures Valid() && Later(old(readers), readers) && terminations == old(terminations) + 1 && target == Some(h)
      ensures raised == Noting(old(raised), failure) && (failure.Some? ==> failure.value == CallFailed(Terminate))
    {
      terminations, target := terminations + 1, Some(h);
      failure := Try(Terminate);
    }

    /** `time.monotonic`. */
    method Now() returns (now: nat)
      requires Valid()
      modifies `clock
      ensures Valid() && now == clock >= old(clock)
    {
      var passed: int := *;
      clock := clock + if passed > 0 then passed else 0;
      now := clock;
    }

    method Sleep()
      requires Valid()
      modifies `readers, `readErrors, `clock
      ensures Valid() && Later(old(readers), readers) && clock > old(clock)
    {
      Tick();
      var now := Now();
      clock := now + 1;
    }

    /** A wait that times out takes its time. */
    method Wait(process: nat) returns (result: Status)
      requires Valid() && Open(process)
      modifies `readers, `readErrors, `status, `clock
      ensures Valid() && Later(old(readers), readers) && status == Some(result)
      ensures clock >= old(clock) && (result.Timeout? ==> clock > old(clock))
    {
      Tick();
      result := *;
      status := Some(result);
      var now := Now();
      if result.Timeout? {
        clock := now + 1;
      }
    }

    method GetExitCode(process: nat) returns (failure: Option<Error>, code: int)
      requires Valid() && Open(process)
      modifies `readers, `readErrors, `raised, `exit
      ensures Valid() && Later(old(readers), readers)
      ensures raised == Noting(old(raised), failure) && (failure.Some? ==> failure.value == CallFailed(ExitCode))
      ensures failure.None? ==> exit == Some(code)
    {
      failure := Try(ExitCode);
      code := *;
      exit := if failure.None? then Some(code) else exit;
    }

    method ActiveCount(job: nat) returns (failure: Option<Error>, count: nat)
      requires Valid() && Open(job)
      modifies `readers, `readErrors, `raised, `active
      ensures Valid() && Later(old(readers), readers)
      ensures raised == Noting(old(raised), failure) && (failure.Some? ==> failure.value == CallFailed(Active))
      ensures failure.None? ==> active == Some(count)
    {
      failure := Try(Active);
      count := *;
      active := if failure.None? then Some(count) else active;
    }

    method CancelRead(pipe: nat) returns (failure: Option<Error>)
      requires Valid() && Open(pipe)
      modifies `readers, `readErrors, `raised, `cancels
      ensures Valid() && Later(old(readers), readers) && cancels == old(cancels) + {pipe}
      ensures raised == Noting(old(raised), failure) && (failure.Some? ==> failure.value == CallFailed(Cancel))
    {
      cancels := cancels + {pipe};
      failure := Try(Cancel);
    }

    /** Closing is attempted once, on a handle of ours that no running reader uses. */
    method CloseHandle(h: nat) returns (failure: Option<Error>)
      requires Valid() && Open(h)
      requires forall i :: 0 <= i < |readers| && readers[i].pipe == h ==> !readers[i].state.Running?
      modifies `readers, `readErrors, `raised, `attempts
      ensures Valid() && Later(old(readers), readers) && attempts == old(attempts) + [h]
      ensures raised == Noting(old(raised), failure) && (failure.Some? ==> failure.value == CallFailed(Close))
    {
      attempts := attempts + [h];
      failure := Try(Close);
    }

    /** The two reader threads, each on its pipe. */
    method StartReaders(out: nat, err: nat)
      requires Valid() && Open(out) && Open(err) && readers == []
      modifies `readers
      ensures Valid() && readers == [Reader(out, Running), Reader(err, Running)] && PipesOf(readers) == [out, err]
    {
      readers := [Reader(out, Running), Reader(err, Running)];
      assert PipesOf(readers) == [out, err];
    }
  }

  lemma EndOne(readers: seq<Reader>, i: nat, state: ReaderState)
    requires i < |readers| && readers[i].state.Running? && !state.Running?
    ensures var after := readers[i := readers[i].(state := state)];
            Later(readers, after) && (AnyDied(after) <==> AnyDied(readers) || state.Died?)
  {
    var after := readers[i := readers[i].(state := state)];
    assert after[i].state == state;
    assert PipesOf(readers) == PipesOf(after);
    if AnyDied(readers) {
      var j :| 0 <= j < |readers| && readers[j].state.Died?;
      assert after[j].state.Died?;
    }
  }

  lemma {:induction false} Bounded(s: set<nat>) returns (b: nat)
    ensures forall x :: x in s ==> x <= b
  {
    b := 0;
    if s != {} {
      var x :| x in s;
      var c := Bounded(s - {x});
      b := if c < x then x else c;
      forall y | y in s ensures y <= b {
        assert y == x || y in s - {x};
      }
    }
  }

  lemma FreshExists(s: set<nat>)
    ensures exists h: nat :: h != 0 && h !in s
  {
    var b := Bounded(s);
    assert b + 1 != 0 && b + 1 !in s;
  }

  datatype Outcome = Returned(output: bytes) | Raised(error: Error) | RaisedGroup(errors: seq<Error>)

  /** Every exception an outcome carries to the caller. */
  function Errors(o: Outcome): seq<Error> {
    match o
    case Returned(_) => []
    case Raised(e) => [e]
    case RaisedGroup(es) => es
  }

  const STILL_ACTIVE := 259
  const CHILD_TIMEOUT := 30000
  const CLEANUP_TIMEOUT := 5000

  /** The state shared by the nested functions of `run`. */
  class Owner {
    const kernel: Kernel
    var job: Option<nat>
    var process: Option<nat>
    var thread: Option<nat>
    var parents: seq<nat>       // stdin, stdout read and write, stderr read and write, extra
    var closed: set<nat>
    var inJob: bool
    var readersEnded: bool

    constructor (k: Kernel)
      requires k.Valid() && k.issued == {} && k.attempts == [] && k.readers == [] && k.raised == []
      requires k.owned == None && k.terminations == 0 && k.cancels == {}
      ensures kernel == k && Valid() && Untouched()
    {
      kernel, job, process, thread := k, None, None, None;
      parents, closed, inJob, readersEnded := [], {}, false, false;
      new;
    }

    /** The read pipes are apart from what the child inherits; the sixth place is unused. */
    static predicate SixHandles(parents: seq<nat>) {
      && |parents| == 6 && parents[5] == 0
      && parents[1] !in [0, parents[0], parents[2], parents[4]] && parents[3] !in [0, parents[0], parents[2], parents[4]]
    }

    predicate Known(h: nat)
      reads this
    {
      h in parents || job == Some(h) || process == Some(h) || thread == Some(h)
    }

    predicate Shape()
      reads this
    {
      && (parents == [] || SixHandles(parents))
      && job != Some(0) && process != Some(0) && thread != Some(0)
      && (job.Some? ==> job.value !in parents)
      && (process.Some? <==> thread.Some?)
      && (process.Some? ==> job.Some? && parents != [] && process.value !in parents && thread.value !in parents)
      && (process.Some? ==> process != thread && process != job && thread != job)
      && (inJob ==> process.Some?)
    }

    /** The handles the owner knows are exactly those it was given, and it remembers what it closed. */
    ghost predicate Valid()
      reads this, kernel
    {
      && kernel.Valid() && Shape()
      && (forall h :: h in kernel.issued <==> h != 0 && Known(h))
      && (forall h :: h in closed <==> h in kernel.attempts)
      && (kernel.readers == [] || (parents != [] && PipesOf(kernel.readers) == [parents[1], parents[3]]))
      && kernel.owned == (if inJob then process else None)
    }

    /** Job, process and thread are open. */
    predicate CoreOpen()
      reads this
    {
      && (job.Some? ==> job.value !in closed)
      && (process.Some? ==> process.value !in closed && thread.Some? && thread.value !in closed)
    }

    predicate IsReadPipe(h: nat)
      reads this
    {
      |parents| == 6 && (h == parents[1] || h == parents[3])
    }

    predicate PipesOpen()
      reads this
    {
      |parents| == 6 ==> parents[1] !in closed && parents[3] !in closed
    }

    method CloseOnce(h: nat) returns (failure: Option<Error>)
      requires Valid() && (h == 0 || h in kernel.issued)
      requires IsReadPipe(h) ==> AllEnded(kernel.readers)
      modifies `closed, kernel`readers, kernel`readErrors, kernel`raised, kernel`attempts
      ensures Valid() && Later(old(kernel.readers), kernel.readers)
      ensures closed == old(closed) + (if h == 0 then {} else {h})
      ensures kernel.attempts == old(kernel.attempts) + (if h == 0 || h in old(closed) then [] else [h])
      ensures failure.Some? ==> failure.value == CallFailed(Close)
      ensures kernel.raised == Noting(old(kernel.raised), failure)
    {
      hide NoDuplicates, AnyDied, SixHandles;
      if h != 0 && h !in closed {
        OnlyPipesAreRead(h);
        closed := closed + {h};
        failure := kernel.CloseHandle(h);
      } else {
        failure := None;
      }
    }

    /** A handle other than the two read pipes is no reader's. */
    lemma OnlyPipesAreRead(h: nat)
      requires Valid() && (IsReadPipe(h) ==> AllEnded(kernel.readers))
      ensures forall i :: 0 <= i < |kernel.readers| && kernel.readers[i].pipe == h ==> !kernel.readers[i].state.Running?
    {
      hide NoDuplicates, AnyDied;
      forall i | 0 <= i < |kernel.readers| && kernel.readers[i].pipe == h ensures !kernel.readers[i].state.Running? {
        assert PipesOf(kernel.readers)[i] == h;
        assert IsReadPipe(h);
      }
    }

    /** The first error a reader recorded, if any has yet. */
    function FirstReaderError(): Option<Error>
      reads kernel
    {
      if kernel.readErrors == [] then None else Some(kernel.readErrors[0])
    }

    method Fail(e: Error) returns (failure: Option<Error>)
      modifies kernel`raised
      ensures failure == Some(e) && kernel.raised == Noting(old(kernel.raised), failure)
    {
      kernel.Raise(e);
      return Some(e);
    }

    /**
     `wait_until_exit`: it ends well only when the child is seen to end, and for lack of time only at the deadline;
     a reader's error is raised only where readers are watched.
     */
    method WaitUntilExit(deadline: nat, watchReaders: bool) returns (failure: Option<Error>)
      requires Valid() && CoreOpen() && process.Some?
      modifies kernel`readers, kernel`readErrors, kernel`raised, kernel`status, kernel`clock
      ensures Valid() && Later(old(kernel.readers), kernel.readers) && kernel.clock >= old(kernel.clock)
      ensures kernel.raised == Noting(old(kernel.raised), failure)
      ensures failure.None? ==> kernel.status == Some(Signaled)
      ensures failure.Some? && failure.value.UnexpectedStatus? ==> kernel.status == Some(Other(failure.value.status))
      ensures failure == Some(TimedOut) ==> kernel.clock >= deadline
      ensures failure.Some? && failure.value.ReadFailed? ==>
                watchReaders && kernel.readErrors != [] && failure.value == kernel.readErrors[0]
      ensures failure.Some? ==> IsWaitError(failure.value) || failure.value.ReadFailed?
      ensures watchReaders && old(kernel.readErrors) != [] ==> failure == Some(old(kernel.readErrors)[0])
    {
      hide NoDuplicates, AnyDied, AllEnded, PipesOf, SixHandles;
      while true
        invariant Valid() && Later(old(kernel.readers), kernel.readers) && kernel.raised == old(kernel.raised)
        invariant watchReaders && old(kernel.readErrors) != [] ==> kernel.readErrors == old(kernel.readErrors)
        invariant kernel.clock >= old(kernel.clock)
        decreases if kernel.clock < deadline then deadline - kernel.clock else 0
      {
        if watchReaders && FirstReaderError().Some? {
          assert kernel.readErrors[0] in kernel.readErrors;
          failure := Fail(FirstReaderError().value);
          return;
        }
        var now := kernel.Now();
        if now >= deadline {
          failure := Fail(TimedOut);
          return;
        }
        var status := kernel.Wait(process.value);
        if status.Timeout? {
          continue;
        }
        if !status.Signaled? {
          failure := Fail(UnexpectedStatus(status.code));
          return;
        }
        return None;
      }
    }

    method WaitForSuccess(deadline: nat) returns (failure: Option<Error>)
      requires Valid() && CoreOpen() && process.Some?
      modifies kernel`readers, kernel`readErrors, kernel`raised, kernel`exit, kernel`status, kernel`clock
      ensures Valid() && Later(old(kernel.readers), kernel.readers) && kernel.clock >= old(kernel.clock)
      ensures kernel.raised == Noting(old(kernel.raised), failure)
      ensures failure.None? ==> kernel.exit == Some(0) && kernel.status == Some(Signaled)
      ensures failure == Some(StillActive) ==> kernel.exit == Some(259)
      ensures failure.Some? && failure.value.ChildFailed? ==> kernel.exit == Some(failure.value.code) && failure.value.code !in {0, 259}
      ensures failure.Some? && failure.value.ReadFailed? ==> FirstReaderError() == failure
      ensures failure.Some? && OutOfTime(failure.value) ==> kernel.clock >= deadline
    {
      hide NoDuplicates, AnyDied, AllEnded, PipesOf, SixHandles;
      failure := WaitUntilExit(deadline, true);
      if failure.Some? {
        return;
      }
      var code;
      failure, code := kernel.GetExitCode(process.value);
      if failure.Some? {
        return;
      }
      if code == STILL_ACTIVE {
        failure := Fail(StillActive);
      } else if code != 0 {
        failure := Fail(ChildFailed(code));
      }
    }

    method ProveZeroActive(deadline: nat) returns (failure: Option<Error>)
      requires Valid() && CoreOpen() && job.Some?
      modifies kernel`readers, kernel`readErrors, kernel`raised, kernel`active, kernel`clock
      ensures Valid() && Later(old(kernel.readers), kernel.readers) && kernel.clock >= old(kernel.clock)
      ensures kernel.raised == Noting(old(kernel.raised), failure)
      ensures failure.None? ==> kernel.active == Some(0)
      ensures failure.Some? ==> IsCountError(failure.value)
      ensures failure == Some(ActiveCountNotZero) ==>
                kernel.clock >= deadline && kernel.active.Some? && kernel.active.value > 0
    {
      hide NoDuplicates, AnyDied, AllEnded, PipesOf, SixHandles;
      while true
        invariant Valid() && Later(old(kernel.readers), kernel.readers) && kernel.raised == old(kernel.raised)
        invariant kernel.clock >= old(kernel.clock)
        decreases if kernel.clock < deadline then deadline - kernel.clock else 0
      {
        var count;
        failure, count := kernel.ActiveCount(job.value);
        if failure.Some? || count == 0 {
          return;
        }
        var now := kernel.Now();
        if now >= deadline {
          failure := Fail(ActiveCountNotZero);
          return;
        }
        kernel.Sleep();
      }
    }

    method JoinReaders()
      requires Valid()
      modifies `readersEnded, kernel`readers, kernel`readErrors
      ensures Valid() && Later(old(kernel.readers), kernel.readers)
      ensures readersEnded <==> AllEnded(kernel.readers)
    {
      hide NoDuplicates, AnyDied, PipesOf, SixHandles;
      kernel.Tick();
      readersEnded := AllEnded(kernel.readers);
    }

    predicate Untouched()
      reads this, kernel
    {
      && kernel.issued == {} && kernel.attempts == [] && kernel.readers == [] && kernel.raised == []
      && kernel.owned == None && kernel.terminations == 0 && kernel.cancels == {}
      && parents == [] && job == None && process == None && !inJob
    }

    /** The `try` block: what it returns, or what it raises, which is then the primary error. */
    method Attempt() returns (primary: Option<Error>, output: bytes)
      requires Valid() && Untouched()
      modifies this, kernel
      ensures Valid() && CoreOpen() && PipesOpen() && kernel.terminations == 0 && kernel.cancels == {}
      ensures kernel.raised == Noting([], primary)
      ensures primary.None? ==> kernel.exit == Some(0) && kernel.active == Some(0) && kernel.status == Some(Signaled)
      ensures primary.Some? && primary.value.ReadFailed? ==> FirstReaderError() == primary
      ensures primary.None? ==> process.Some? && kernel.owned == process && kernel.resumed
      ensures primary.None? ==> job.Some? && |kernel.readers| == 2 && AllDone(kernel.readers)
                                && output == kernel.readers[0].state.output
      ensures primary.Some? && OutOfTime(primary.value) ==> kernel.clock >= old(kernel.clock) + CHILD_TIMEOUT
      ensures kernel.clock >= old(kernel.clock)
    {
      hide Valid, CoreOpen, PipesOpen, AllDone, Later;
      output := [];
      primary := Begin();
      if primary.Some? {
        return;
      }
      primary := CloseInherited();
      if primary.Some? {
        return;
      }
      primary := Launch();
      if primary.Some? {
        return;
      }
      primary, output := Collect();
    }

    /** Put the suspended child into the Job, then let it run. */
    method Launch() returns (failure: Option<Error>)
      requires Valid() && CoreOpen() && PipesOpen() && process.Some? && !inJob && |parents| == 6 && kernel.readers == []
      requires forall h :: h in [parents[0], parents[2], parents[4], parents[5]] && h != 0 ==> h in closed
      modifies `inJob, kernel`readers, kernel`readErrors, kernel`raised, kernel`owned, kernel`resumed
      ensures Valid() && CoreOpen() && PipesOpen() && kernel.raised == Noting(old(kernel.raised), failure)
      ensures Later(old(kernel.readers), kernel.readers) && (failure.Some? ==> failure.value.CallFailed?)
      ensures failure.None? ==> kernel.owned == process && kernel.resumed
      ensures job.Some? && kernel.readers == old(kernel.readers)
    {
      hide NoDuplicates, AnyDied, AllEnded, PipesOf, SixHandles;
      failure := kernel.AssignToJob(job.value, process.value);
      if failure.Some? {
        return;
      }
      inJob := true;
      failure := kernel.ResumeThread(thread.value, process.value, [parents[0], parents[2], parents[4], parents[5]]);
    }

    /** Read the child's output to the end and see the child, its job and the readers end well. */
    method Collect() returns (primary: Option<Error>, output: bytes)
      requires Valid() && CoreOpen() && PipesOpen() && process.Some? && kernel.readers == []
      modifies `readersEnded, kernel`readers, kernel`readErrors, kernel`raised, kernel`exit, kernel`active, kernel`status, kernel`clock
      ensures Valid() && kernel.raised == Noting(old(kernel.raised), primary)
      ensures primary.None? ==> kernel.exit == Some(0) && kernel.active == Some(0) && kernel.status == Some(Signaled)
      ensures primary.Some? && primary.value.ReadFailed? ==> FirstReaderError() == primary
      ensures primary.None? ==> |kernel.readers| == 2 && AllDone(kernel.readers) && output == kernel.readers[0].state.output
      ensures primary.Some? && OutOfTime(primary.value) ==> kernel.clock >= old(kernel.clock) + CHILD_TIMEOUT
      ensures CoreOpen() && PipesOpen() && kernel.clock >= old(kernel.clock)
    {
      hide NoDuplicates, PipesOf, AllEnded, AnyDied;
      output := [];
      kernel.StartReaders(parents[1], parents[3]);
      var now := kernel.Now();
      var deadline := now + CHILD_TIMEOUT;
      primary := WaitForSuccess(deadline);
      if primary.Some? {
        return;
      }
      primary := ProveZeroActive(deadline);
      if primary.Some? {
        return;
      }
      JoinReaders();
      if !readersEnded {
        primary := Fail(ReaderOutlived);
        return;
      }
      if FirstReaderError().Some? {
        primary := Fail(FirstReaderError().value);
        return;
      }
      EndedWellIsDone(kernel.readers);
      output := kernel.readers[0].state.output;
    }

    static lemma EndedWellIsDone(readers: seq<Reader>)
      requires AllEnded(readers) && !AnyDied(readers)
      ensures AllDone(readers)
    {
    }

    /** Acquire the job, the six standard handles, and the suspended child. */
    method Begin() returns (failure: Option<Error>)
      requires Valid() && Untouched()
      modifies `job, `process, `thread, `parents, kernel`issued, kernel`readers, kernel`readErrors, kernel`raised
      ensures Valid() && CoreOpen() && PipesOpen() && kernel.readers == [] && kernel.raised == Noting([], failure)
      ensures failure.Some? ==> failure.value.CallFailed?
      ensures failure.None? ==> process.Some? && parents != []
    {
      hide PipesOf, AnyDied;
      failure := kernel.Try(CreateJob);
      NoReaders(old(kernel.readers), kernel.readers);
      if failure.Some? {
        return;
      }
      var h := kernel.Issue(1);
      job := Some(h[0]);
      failure := CreateStandardHandles();
      if failure.Some? {
        return;
      }
      failure := CreateChild();
    }

    static lemma NoReaders(before: seq<Reader>, after: seq<Reader>)
      requires Later(before, after) && before == []
      ensures after == []
    {
    }

    method CreateStandardHandles() returns (failure: Option<Error>)
      requires Valid() && kernel.readers == [] && kernel.attempts == [] && parents == [] && job.Some? && process == None
      modifies `parents, kernel`issued, kernel`readers, kernel`readErrors, kernel`raised
      ensures Valid() && kernel.readers == [] && kernel.raised == Noting(old(kernel.raised), failure)
      ensures failure.Some? ==> failure.value.CallFailed?
      ensures failure.None? ==> parents != []
    {
      hide PipesOf, AnyDied;
      failure := kernel.Try(CreateStdio);
      NoReaders(old(kernel.readers), kernel.readers);
      if failure.Some? {
        return;
      }
      var pipes := kernel.Issue(5);
      parents := pipes + [0];
    }

    method CreateChild() returns (failure: Option<Error>)
      requires Valid() && kernel.readers == [] && kernel.attempts == [] && parents != [] && job.Some? && process == None
      modifies `process, `thread, kernel`issued, kernel`readers, kernel`readErrors, kernel`raised
      ensures Valid() && kernel.readers == [] && kernel.raised == Noting(old(kernel.raised), failure)
      ensures failure.Some? ==> failure.value.CallFailed?
      ensures failure.None? ==> process.Some?
    {
      hide PipesOf, AnyDied, SixHandles;
      failure := kernel.Try(CreateSuspended);
      NoReaders(old(kernel.readers), kernel.readers);
      if failure.Some? {
        return;
      }
      var child := kernel.Issue(2);
      assert child[0] in child && child[1] in child;
      process, thread := Some(child[0]), Some(child[1]);
    }

    /** Close every inherited parent-side handle. */
    method CloseInherited() returns (failure: Option<Error>)
      requires Valid() && parents != [] && kernel.attempts == [] && kernel.readers == []
      modifies `closed, kernel`readers, kernel`readErrors, kernel`raised, kernel`attempts
      ensures Valid() && CoreOpen() && PipesOpen() && kernel.readers == [] && |parents| == 6
      ensures kernel.raised == Noting(old(kernel.raised), failure)
      ensures failure.Some? ==> failure.value.CallFailed?
      ensures failure.None? ==> forall h :: h in [parents[0], parents[2], parents[4], parents[5]] && h != 0 ==> h in closed
    {
      hide NoDuplicates, AnyDied, PipesOf;
      var inherited := [parents[0], parents[2], parents[4], parents[5]];
      for i := 0 to 4
        invariant Valid() && CoreOpen() && PipesOpen() && kernel.readers == [] && kernel.raised == old(kernel.raised)
        invariant forall j :: 0 <= j < i && inherited[j] != 0 ==> inherited[j] in closed
      {
        failure := CloseOnce(inherited[i]);
        if failure.Some? {
          return;
        }
      }
      failure := None;
    }

    /** The process is closed after its thread, and the Job last of all. */
    ghost predicate ClosedLast()
      reads this, kernel
    {
      var n := |kernel.attempts|;
      && (job.Some? ==> n > 0 && kernel.attempts[n - 1] == job.value)
      && (process.Some? ==> job.Some? && thread.Some? && n > 2 && kernel.attempts[n - 3..] == [thread.value, process.value, job.value])
    }

    /** None of the errors is a reader's. */
    static predicate NoReadErrors(errors: seq<Error>) {
      forall i :: 0 <= i < |errors| ==> !errors[i].ReadFailed?
    }

    /** A child that is to end is ended with its whole Job if the kernel has it in the Job, and otherwise alone. */
    ghost predicate EndedRightly()
      reads this, kernel
    {
      && kernel.terminations == 1 && process.Some?
      && kernel.target == if kernel.owned == process then job else process
    }

    /** What follows the `try` block; returns the cleanup errors, in order. */
    method Cleanup(primary: Option<Error>) returns (errors: seq<Error>)
      requires Valid() && CoreOpen() && PipesOpen() && kernel.terminations == 0
      modifies `closed, `readersEnded
      modifies kernel`readers, kernel`readErrors, kernel`raised, kernel`attempts, kernel`terminations, kernel`active
      modifies kernel`cancels, kernel`target, kernel`status, kernel`clock
      ensures Valid() && kernel.Valid() && kernel.clock >= old(kernel.clock)
      ensures AllDone(old(kernel.readers)) ==> kernel.readers == old(kernel.readers) && kernel.cancels == old(kernel.cancels)
      ensures kernel.raised == old(kernel.raised) + errors && NoReadErrors(errors)
      ensures primary.Some? && process.Some? ==> EndedRightly() && (kernel.status == Some(Signaled) || AnyWaitError(errors))
      ensures primary.None? || process.None? ==> kernel.terminations == 0 && kernel.status == old(kernel.status)
      ensures forall h :: h in kernel.issued ==>
                h in kernel.attempts || (IsReadPipe(h) && !readersEnded && h in kernel.cancels)
      ensures !readersEnded ==> ReaderOutlived in errors
      ensures job.Some? ==> kernel.active == Some(0) || AnyCountError(errors)
      ensures AnyOutOfTime(errors) ==> kernel.clock >= old(kernel.clock) + CLEANUP_TIMEOUT
      ensures ClosedLast()
    {
      hide NoDuplicates, AnyDied, PipesOf, AllEnded, SixHandles, ClosedLast, NoReadErrors;
      hide AnyWaitError, AnyCountError, AnyOutOfTime;
      errors := [];
      NoErrors();
      DoneHaveEnded(kernel.readers);
      var now := kernel.Now();
      var deadline := now + CLEANUP_TIMEOUT;
      if primary.Some? && process.Some? {
        errors := StopChild(deadline);
      }
      if job.Some? {
        errors := CountOut(deadline, old(kernel.raised), errors);
      }
      ghost var before := errors;
      errors := Release(old(kernel.raised), errors);
      ReleasedLater(before, errors);
    }

    static lemma DoneHaveEnded(readers: seq<Reader>)
      ensures AllDone(readers) ==> AllEnded(readers)
    {
    }

    static lemma NoErrors()
      ensures NoReadErrors([]) && !AnyOutOfTime([])
    {
    }

    static lemma NotingReads(errors: seq<Error>, failure: Option<Error>)
      requires NoReadErrors(errors) && (failure.Some? ==> !failure.value.ReadFailed?)
      ensures NoReadErrors(Noting(errors, failure))
    {
    }

    /** One more exception may be of one more kind. */
    static lemma NotingKinds(errors: seq<Error>, failure: Option<Error>)
      ensures AnyWaitError(Noting(errors, failure)) <==> AnyWaitError(errors) || (failure.Some? && IsWaitError(failure.value))
      ensures AnyCountError(Noting(errors, failure)) <==> AnyCountError(errors) || (failure.Some? && IsCountError(failure.value))
      ensures AnyOutOfTime(Noting(errors, failure)) <==> AnyOutOfTime(errors) || (failure.Some? && OutOfTime(failure.value))
    {
      hide IsWaitError, IsCountError, OutOfTime;
      var more := Noting(errors, failure);
      assert forall e :: e in more <==> e in errors || failure == Some(e);
    }

    /** What cancelling reads and closing handles may raise. */
    static predicate IsReleaseError(e: Error) {
      e == CallFailed(Cancel) || e == CallFailed(Close) || e == ReaderOutlived
    }

    /** Only such exceptions came later. */
    static predicate Released(before: seq<Error>, errors: seq<Error>) {
      before <= errors && forall i :: |before| <= i < |errors| ==> IsReleaseError(errors[i])
    }

    static lemma NotingRelease(before: seq<Error>, errors: seq<Error>, failure: Option<Error>)
      requires Released(before, errors) && (failure.Some? ==> IsReleaseError(failure.value))
      ensures Released(before, Noting(errors, failure))
    {
    }

    static lemma ReleasedTwice(before: seq<Error>, middle: seq<Error>, errors: seq<Error>)
      requires Released(before, middle) && Released(middle, errors)
      ensures Released(before, errors)
    {
    }

    static lemma ReleasedLater(before: seq<Error>, errors: seq<Error>)
      requires Released(before, errors)
      ensures NoReadErrors(before) ==> NoReadErrors(errors)
      ensures AnyWaitError(before) <==> AnyWaitError(errors)
      ensures AnyCountError(before) <==> AnyCountError(errors)
      ensures AnyOutOfTime(before) <==> AnyOutOfTime(errors)
    {
      assert errors[..|before|] == before;
      assert forall e :: e in errors && !IsReleaseError(e) ==> e in before;
      assert forall e :: e in before ==> e in errors;
    }

    /** End the readers as far as possible, then close whatever may be closed. */
    method Release(ghost base: seq<Error>, before: seq<Error>) returns (errors: seq<Error>)
      requires Valid() && CoreOpen() && PipesOpen() && kernel.raised == base + before
      modifies `closed, `readersEnded, kernel`readers, kernel`readErrors, kernel`raised, kernel`attempts, kernel`cancels
      ensures Valid() && Later(old(kernel.readers), kernel.readers)
      ensures Released(before, errors) && kernel.raised == base + errors
      ensures forall h :: h in kernel.issued ==>
                h in kernel.attempts || (IsReadPipe(h) && !readersEnded && h in kernel.cancels)
      ensures !readersEnded ==> ReaderOutlived in errors
      ensures AllEnded(old(kernel.readers)) ==> kernel.cancels == old(kernel.cancels)
      ensures ClosedLast()
    {
      hide NoDuplicates, AnyDied, PipesOf, AllEnded, SixHandles, ClosedLast, Released;
      errors := before;
      NothingReleased(before);
      JoinReaders();
      if !readersEnded {
        errors := CancelAndJoin(base, errors);
      }
      ghost var joined := errors;
      errors := CloseParents(base, errors);
      ReleasedTwice(before, joined, errors);
      StillOutlived(joined, errors);
      ghost var parted := errors;
      errors := CloseRest(base, errors);
      ReleasedTwice(before, parted, errors);
      StillOutlived(parted, errors);
      forall h | h in kernel.issued
        ensures h in kernel.attempts || (IsReadPipe(h) && !readersEnded && h in kernel.cancels)
      {
        assert Known(h);
        assert h in parents || Some(h) in [thread, process, job];
      }
    }

    static lemma NothingReleased(before: seq<Error>)
      ensures Released(before, before)
    {
    }

    static lemma StillOutlived(before: seq<Error>, errors: seq<Error>)
      requires Released(before, errors)
      ensures ReaderOutlived in before ==> ReaderOutlived in errors
    {
    }

    /** End the child and wait for its end. */
    method StopChild(deadline: nat) returns (errors: seq<Error>)
      requires Valid() && CoreOpen() && process.Some? && kernel.terminations == 0
      modifies kernel`readers, kernel`readErrors, kernel`raised, kernel`terminations, kernel`target, kernel`status, kernel`clock
      ensures Valid() && Later(old(kernel.readers), kernel.readers) && kernel.clock >= old(kernel.clock)
      ensures kernel.raised == old(kernel.raised) + errors && NoReadErrors(errors)
      ensures EndedRightly() && (kernel.status == Some(Signaled) || AnyWaitError(errors))
      ensures AnyOutOfTime(errors) ==> kernel.clock >= deadline
    {
      hide NoDuplicates, AnyDied, PipesOf, AllEnded, SixHandles, NoReadErrors, AnyWaitError, AnyCountError, AnyOutOfTime;
      var failure := kernel.TerminateChild(if inJob then job.value else process.value);
      NoErrors();
      NotingAssociates(old(kernel.raised), [], failure);
      NotingReads([], failure);
      NotingKinds([], failure);
      errors := Noting([], failure);
      assert old(kernel.raised) + [] == old(kernel.raised);
      failure := WaitUntilExit(deadline, false);
      NotingAssociates(old(kernel.raised), errors, failure);
      NotingReads(errors, failure);
      NotingKinds(errors, failure);
      errors := Noting(errors, failure);
    }

    /** The Job is seen to be empty, or it is told why not. */
    method CountOut(deadline: nat, ghost base: seq<Error>, before: seq<Error>) returns (errors: seq<Error>)
      requires Valid() && CoreOpen() && job.Some? && kernel.raised == base + before && NoReadErrors(before)
      requires AnyOutOfTime(before) ==> kernel.clock >= deadline
      modifies kernel`readers, kernel`readErrors, kernel`raised, kernel`active, kernel`clock
      ensures Valid() && Later(old(kernel.readers), kernel.readers) && kernel.clock >= old(kernel.clock)
      ensures kernel.raised == base + errors && NoReadErrors(errors)
      ensures kernel.active == Some(0) || AnyCountError(errors)
      ensures AnyWaitError(before) ==> AnyWaitError(errors)
      ensures AnyOutOfTime(errors) ==> kernel.clock >= deadline
    {
      hide NoDuplicates, AnyDied, PipesOf, AllEnded, SixHandles, NoReadErrors, AnyWaitError, AnyCountError, AnyOutOfTime;
      var failure := ProveZeroActive(deadline);
      NotingAssociates(base, before, failure);
      NotingReads(before, failure);
      NotingKinds(before, failure);
      errors := Noting(before, failure);
    }

    method CancelAndJoin(ghost base: seq<Error>, before: seq<Error>) returns (errors: seq<Error>)
      requires Valid() && CoreOpen() && PipesOpen() && kernel.raised == base + before
      modifies `readersEnded, kernel`readers, kernel`readErrors, kernel`raised, kernel`cancels
      ensures Valid() && Later(old(kernel.readers), kernel.readers)
      ensures readersEnded <==> AllEnded(kernel.readers)
      ensures forall h :: IsReadPipe(h) ==> h in kernel.cancels
      ensures Released(before, errors) && kernel.raised == base + errors
      ensures !readersEnded ==> ReaderOutlived in errors
    {
      hide NoDuplicates, AnyDied, PipesOf, AllEnded, Released;
      errors := before;
      NothingReleased(before);
      if parents != [] {
        var failure := kernel.CancelRead(parents[1]);
        NotingAssociates(base, errors, failure);
        NotingRelease(before, errors, failure);
        errors := Noting(errors, failure);
        failure := kernel.CancelRead(parents[3]);
        NotingAssociates(base, errors, failure);
        NotingRelease(before, errors, failure);
        errors := Noting(errors, failure);
      }
      JoinReaders();
      if !readersEnded {
        var failure := Fail(ReaderOutlived);
        NotingAssociates(base, errors, failure);
        NotingRelease(before, errors, failure);
        errors := Noting(errors, failure);
      }
    }

    /** Close the parent's handles, but not the pipes a reader may still use. */
    method CloseParents(ghost base: seq<Error>, before: seq<Error>) returns (errors: seq<Error>)
      requires Valid() && CoreOpen() && (readersEnded ==> AllEnded(kernel.readers)) && kernel.raised == base + before
      modifies `closed, kernel`readers, kernel`readErrors, kernel`raised, kernel`attempts
      ensures Valid() && CoreOpen() && Later(old(kernel.readers), kernel.readers)
      ensures Released(before, errors) && kernel.raised == base + errors
      ensures forall h :: h in parents && h != 0 ==> h in closed || (IsReadPipe(h) && !readersEnded)
    {
      hide NoDuplicates, AnyDied, PipesOf, AllEnded, SixHandles, Released;
      errors := before;
      NothingReleased(before);
      for i := 0 to |parents|
        invariant Valid() && CoreOpen() && Later(old(kernel.readers), kernel.readers)
        invariant readersEnded ==> AllEnded(kernel.readers)
        invariant Released(before, errors) && kernel.raised == base + errors
        invariant forall j :: 0 <= j < i && parents[j] != 0 ==> parents[j] in closed || (IsReadPipe(parents[j]) && !readersEnded)
      {
        if IsReadPipe(parents[i]) && !readersEnded {
          continue;
        }
        var failure := CloseOnce(parents[i]);
        NotingAssociates(base, errors, failure);
        NotingRelease(before, errors, failure);
        errors := Noting(errors, failure);
      }
    }

    /** Close the thread, the process and last the job. */
    method CloseRest(ghost base: seq<Error>, before: seq<Error>) returns (errors: seq<Error>)
      requires Valid() && CoreOpen() && kernel.raised == base + before
      requires job.Some? ==> !IsReadPipe(job.value)
      requires process.Some? ==> !IsReadPipe(process.value) && !IsReadPipe(thread.value)
      modifies `closed, kernel`readers, kernel`readErrors, kernel`raised, kernel`attempts
      ensures Valid() && Later(old(kernel.readers), kernel.readers) && old(closed) <= closed
      ensures Released(before, errors) && kernel.raised == base + errors
      ensures forall h :: Some(h) in [thread, process, job] ==> h in closed
      ensures ClosedLast()
    {
      hide NoDuplicates, AnyDied, PipesOf, AllEnded, SixHandles, ClosedLast, Released;
      NothingReleased(before);
      errors := CloseIfThere(base, before, before, thread);
      errors := CloseIfThere(base, before, errors, process);
      errors := CloseIfThere(base, before, errors, job);
      LastIsJob(old(kernel.attempts));
    }

    /** The handles that are there. */
    static function Present(handle: Option<nat>): seq<nat> {
      if handle.Some? then [handle.value] else []
    }

    lemma LastIsJob(before: seq<nat>)
      requires Shape() && kernel.attempts == before + Present(thread) + Present(process) + Present(job)
      ensures ClosedLast()
    {
      hide SixHandles;
      if process.Some? {
        assert kernel.attempts == before + [thread.value, process.value, job.value];
      }
    }

    method CloseIfThere(ghost base: seq<Error>, ghost first: seq<Error>, before: seq<Error>, handle: Option<nat>)
      returns (errors: seq<Error>)
      requires Valid() && kernel.raised == base + before && Released(first, before)
      requires handle.Some? ==> handle.value in kernel.issued && handle.value !in closed && !IsReadPipe(handle.value)
      modifies `closed, kernel`readers, kernel`readErrors, kernel`raised, kernel`attempts
      ensures Valid() && Later(old(kernel.readers), kernel.readers)
      ensures closed == old(closed) + (if handle.Some? then {handle.value} else {})
      ensures Released(first, errors) && kernel.raised == base + errors
      ensures kernel.attempts == old(kernel.attempts) + Present(handle)
    {
      hide NoDuplicates, AnyDied, PipesOf, AllEnded, SixHandles, Released;
      errors := before;
      if handle.Some? {
        var failure := CloseOnce(handle.value);
        NotingAssociates(base, errors, failure);
        NotingRelease(first, errors, failure);
        errors := Noting(errors, failure);
      }
    }

    /** The primary exception and then those of the cleanup. */
    static lemma InOrder(primary: Option<Error>, errors: seq<Error>)
      requires NoReadErrors(errors)
      ensures var all := Noting([], primary) + errors;
              && (primary.Some? ==> all != [] && all[0] == primary.value && all[1..] == errors && all == [primary.value] + errors)
              && (primary.None? ==> all == errors)
              && (AnyCountError(errors) ==> AnyCountError(all))
              && (AnyOutOfTime(all) ==> AnyOutOfTime(errors) || (primary.Some? && OutOfTime(primary.value)))
              && forall i :: (if primary.Some? then 1 else 0) <= i < |all| ==> !all[i].ReadFailed?
    {
      var all := Noting([], primary) + errors;
      assert forall e :: e in all <==> e in errors || primary == Some(e);
    }

    /**
     `run`. Whatever the kernel does: no handle is closed twice and every handle's closing is attempted, the
     thread, the process and the Job last, but for the read pipes while a reader lives, which are then cancelled
     and reported; a child is ended once and rightly if anything failed; bytes are returned only after the child
     was seen to end with exit code 0, an active count of 0 and two readers that ended without error, with nothing
     raised anywhere; and every exception raised on the way, the primary one first, is in what is raised, alone
     or in a group.
     */
    method Run() returns (outcome: Outcome, ghost primary: Option<Error>)
      requires Valid() && Untouched()
      modifies this, kernel
      ensures kernel.Valid() && Errors(outcome) == kernel.raised && (outcome.Returned? <==> kernel.raised == [])
      ensures primary.Some? ==> kernel.raised != [] && kernel.raised[0] == primary.value
      ensures outcome.Raised? <==> primary.Some? && |kernel.raised| == 1
      ensures forall i :: (if primary.Some? then 1 else 0) <= i < |kernel.raised| ==> !kernel.raised[i].ReadFailed?
      ensures forall h :: h in kernel.issued ==>
                || h in kernel.attempts
                || (IsReadPipe(h) && !readersEnded && h in kernel.cancels && ReaderOutlived in Errors(outcome))
      ensures ClosedLast()
      ensures outcome.Returned? ==> kernel.exit == Some(0) && kernel.active == Some(0) && kernel.status == Some(Signaled)
      ensures outcome.Returned? ==> process.Some? && kernel.owned == process && kernel.resumed
      ensures outcome.Returned? ==> |kernel.readers| == 2 && AllDone(kernel.readers) && kernel.cancels == {}
                                    && outcome.output == kernel.readers[0].state.output
      ensures primary.Some? && process.Some? ==>
                EndedRightly() && (kernel.status == Some(Signaled) || AnyWaitError(kernel.raised[1..]))
      ensures job.Some? ==> kernel.active == Some(0) || AnyCountError(kernel.raised)
      ensures primary.None? || process.None? ==> kernel.terminations == 0
      ensures primary.None? ==> kernel.exit == Some(0) && AllDone(kernel.readers)
      ensures primary.Some? && OutOfTime(primary.value) ==> kernel.clock >= old(kernel.clock) + 30000
      ensures AnyOutOfTime(kernel.raised) ==> kernel.clock >= old(kernel.clock) + 5000
    {
      hide Valid, Shape, CoreOpen, PipesOpen, Later, ClosedLast, EndedRightly, IsReadPipe, NoReadErrors;
      hide AnyWaitError, AnyCountError, AnyOutOfTime;
      var failure, output := Attempt();
      primary := failure;
      var errors := Cleanup(failure);
      InOrder(failure, errors);
      if failure.Some? && errors != [] {
        return RaisedGroup([failure.value] + errors), primary;
      }
      if errors != [] {
        return RaisedGroup(errors), primary;
      }
      if failure.Some? {
        return Raised(failure.value), primary;
      }
      return Returned(output), primary;
    }
  }
}
