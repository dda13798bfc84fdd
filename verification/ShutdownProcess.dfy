/**
  Graceful shutdown in place (graceful_shutdown/shutdown.go), when nothing runs beside
  it: the package's variables, the worker's program, and a caller that waits for its
  end. Which events panic is the environment. Every change is one of the step system.
*/
module ShutdownProcess {
  import opened Shutdown

  /** The worker has got through the first `n` events, or begun the `n`-th and panicked in it. */
  ghost predicate GotThrough(s: State, n: nat, ok: bool) {
    && WorkerInOrder(s) && ResultSettled(s)
    && (if ok then s.worker == Running(n) else s.worker == Unwinding && |s.begun| == n)
  }

  /** None of the first `n` events panics. */
  ghost predicate NonePanics(panics: Event -> bool, n: nat)
    requires n <= |PROGRAM|
  {
    forall i | 0 <= i < n :: !panics(PROGRAM[i])
  }

  lemma KeepBoth(s: State, a: Action)
    requires WorkerInOrder(s) && ResultSettled(s) && Enabled(s, a)
    ensures WorkerInOrder(Do(s, a)) && ResultSettled(Do(s, a))
  {
    KeepsOrder(s, a);
    KeepsResult(s, a);
  }

  lemma StepGetsThrough(s: State, n: nat, ok: bool)
    requires GotThrough(s, n, true) && n < |PROGRAM|
    ensures GotThrough(Do(s, if ok then Perform else PanicIn), n + 1, ok)
  {
    KeepBoth(s, if ok then Perform else PanicIn);
  }

  class Process {
    var once: bool
    var closing: bool
    var ready: bool
    var rejecting: bool
    var result: Result
    var done: bool              // shutdownDone is closed
    ghost var worker: Worker
    ghost var begun: seq<Event>
    ghost var completed: nat
    ghost var panicked: bool

    ghost function View(): State
      reads this
    {
      State(once, worker, begun, completed, panicked, closing, ready, rejecting, result, if done then 1 else 0, [])
    }

    /** Between calls the worker has either not started or ended. */
    ghost predicate Valid()
      reads this
    {
      && WorkerInOrder(View()) && ResultSettled(View())
      && (if once then worker == Ended else worker == Idle)
    }

    constructor ()
      ensures Valid() && View() == INIT
    {
      once, closing, ready, rejecting, result, done := false, false, true, false, Nil, false;
      worker, begun, completed, panicked := Idle, [], 0, false;
    }

    /** One event: it takes effect, or panics. */
    method Perform(e: Event, panics: Event -> bool) returns (ok: bool)
      requires worker.Running? && worker.next < |PROGRAM| && e == PROGRAM[worker.next]
      modifies this
      ensures ok == !panics(e)
      ensures View() == Do(old(View()), if ok then Action.Perform else PanicIn)
    {
      begun := begun + [e];
      if panics(e) {
        worker, panicked := Unwinding, true;
        return false;
      }
      if e == MarkClosing {
        closing := true;
      } else if e == MarkNotReady {
        ready := false;
      } else if e == RejectNew {
        rejecting := true;
      }
      worker, completed := Running(worker.next + 1), completed + 1;
      ok := true;
    }

    /** The worker has performed `n` events and none panicked, or the last of them is the first to panic. */
    ghost predicate Progress(panics: Event -> bool, n: nat, ok: bool)
      reads this
    {
      && n <= |PROGRAM| && GotThrough(View(), n, ok)
      && (if ok then NonePanics(panics, n) else n > 0 && NonePanics(panics, n - 1) && panics(PROGRAM[n - 1]))
    }

    /** Event number `n` of the worker's program. */
    method Step(e: Event, n: nat, panics: Event -> bool) returns (ok: bool)
      requires n < |PROGRAM| && e == PROGRAM[n] && Progress(panics, n, true)
      modifies this
      ensures Progress(panics, n + 1, ok)
    {
      StepGetsThrough(View(), n, !panics(e));
      ok := Perform(e, panics);
    }

    /** Step one: mark the process closing and not ready. */
    method MarkClosingState(panics: Event -> bool) returns (ok: bool, ghost n: nat)
      requires Progress(panics, 0, true)
      modifies this
      ensures Progress(panics, n, ok) && (ok ==> n == 2)
    {
      n := 1;
      ok := Step(MarkClosing, 0, panics);
      if !ok { return; }
      n := 2;
      ok := Step(MarkNotReady, 1, panics);
    }

    /** Steps two to four: announce the shutdown while still serving. */
    method StillServing(panics: Event -> bool) returns (ok: bool, ghost n: nat)
      requires Progress(panics, 2, true)
      modifies this
      ensures Progress(panics, n, ok) && (ok ==> n == 5)
    {
      n := 3;
      ok := Step(UnregisterServices, 2, panics);
      if !ok { return; }
      n := 4;
      ok := Step(NotifyConsumers, 3, panics);
      if !ok { return; }
      n := 5;
      ok := Step(AcceptAndWait, 4, panics);
    }

    /** Step five, `waitForSendingAndReceivingRequests`: reject new requests, wait for the others. */
    method RejectAndDrain(panics: Event -> bool) returns (ok: bool, ghost n: nat)
      requires Progress(panics, 5, true)
      modifies this
      ensures Progress(panics, n, ok) && (ok ==> n == 7)
    {
      n := 6;
      ok := Step(RejectNew, 5, panics);
      if !ok { return; }
      n := 7;
      ok := Step(DrainRequests, 6, panics);
    }

    /** Steps six and seven: take down. */
    method TakeDown(panics: Event -> bool) returns (ok: bool, ghost n: nat)
      requires Progress(panics, 7, true)
      modifies this
      ensures Progress(panics, n, ok) && (ok ==> n == |PROGRAM|)
    {
      n := 8;
      ok := Step(DestroyProtocols, 7, panics);
      if !ok { return; }
      n := 9;
      ok := Step(RunCallbacks, 8, panics);
    }

    /** `beforeShutdown`: the events in their order, up to the first that panics. */
    method BeforeShutdown(panics: Event -> bool) returns (ok: bool, ghost n: nat)
      requires Progress(panics, 0, true)
      modifies this
      ensures Progress(panics, n, ok) && (ok ==> n == |PROGRAM|)
    {
      ok, n := MarkClosingState(panics);
      if ok {
        ok, n := StillServing(panics);
      }
      if ok {
        ok, n := RejectAndDrain(panics);
      }
      if ok {
        ok, n := TakeDown(panics);
      }
    }

    /** The deferred function: it recovers a panic and closes shutdownDone. */
    method Finish(ok: bool, ghost panics: Event -> bool, ghost n: nat)
      requires Progress(panics, n, ok) && (ok ==> n == |PROGRAM|)
      modifies this
      ensures View() == Do(Do(old(View()), if ok then Action.Finish else Recover), Close)
      ensures Valid() && once
    {
      ghost var settled := if ok then Action.Finish else Recover;
      KeepBoth(View(), settled);
      KeepBoth(Do(View(), settled), Close);
      result := if ok then Nil else Panicked;
      worker, done := Ended, true;
    }

    /**
      `startShutdownOnce`: the first call runs the worker to its end, which begins the
      events up to the first that panics; later calls change nothing.
    */
    method StartShutdownOnce(panics: Event -> bool)
      requires Valid()
      modifies this
      ensures Valid() && once && done
      ensures old(once) ==> View() == old(View())
      ensures !old(once) ==>
                && (result == Nil <==> NonePanics(panics, |PROGRAM|))
                && (result == Panicked ==>
                      begun != [] && NonePanics(panics, |begun| - 1) && panics(PROGRAM[|begun| - 1]))
    {
      if once {
        return;
      }
      once, worker := true, Running(0);
      ghost var n;
      var ok;
      ok, n := BeforeShutdown(panics);
      Finish(ok, panics, n);
    }

    /**
      `Shutdown` with a context that does not end: the first call reports nil exactly
      when no event panicked, and every later call reports the same and runs nothing.
    */
    method Shutdown(panics: Event -> bool) returns (r: Result)
      requires Valid()
      modifies this
      ensures Valid() && once && r == result
      ensures old(once) ==> View() == old(View())
      ensures !old(once) ==> (r == Nil <==> NonePanics(panics, |PROGRAM|))
    {
      StartShutdownOnce(panics);
      r := result;
    }
  }
}
