/**
  Graceful shutdown (graceful_shutdown/shutdown.go) as a step system: any number of
  callers of Shutdown, one worker started once, and a panic possible at any point
  of the worker's program.
*/
module Shutdown {

  /** What the worker does, in the order of its source; steps one and five set flags first. */
  datatype Event =
    | MarkClosing | MarkNotReady     // 1. mark closing state
    | UnregisterServices             // 2.
    | NotifyConsumers                // 3.
    | AcceptAndWait                  // 4.
    | RejectNew | DrainRequests      // 5. reject new requests, wait for the others
    | DestroyProtocols               // 6.
    | RunCallbacks                   // 7.

  const PROGRAM: seq<Event> :=
    [MarkClosing, MarkNotReady, UnregisterServices, NotifyConsumers, AcceptAndWait,
     RejectNew, DrainRequests, DestroyProtocols, RunCallbacks]

  /** The outcome stored in shutdownResult. */
  datatype Result = Nil | Panicked

  datatype Worker = Idle | Running(next: nat) | Unwinding | Ending | Ended

  datatype Caller = Entered | Waiting | ReturnedDone(result: Result) | ReturnedEarly

  /**
    `begun` lists the events the worker has begun; `completed` counts those that
    ran to their end; `panicked` says whether the worker ever panicked; `closes`
    counts closes of shutdownDone.
  */
  datatype State = State(
    once: bool, worker: Worker, begun: seq<Event>, completed: nat, panicked: bool,
    closing: bool, ready: bool, rejecting: bool, result: Result, closes: nat, callers: seq<Caller>)

  const INIT := State(false, Idle, [], 0, false, false, true, false, Nil, 0, [])

  datatype Action =
    | Enter                  // a caller enters Shutdown
    | StartOnce(c: nat)      // ... passes startShutdownOnce
    | ReturnDone(c: nat)     // ... and returns because shutdownDone is closed
    | ReturnEarly(c: nat)    // ... or because its context ended
    | Perform                // the worker performs its next event
    | PanicIn                // its next event begins and panics
    | PanicBetween           // it panics outside the events, as in loading the configuration
    | Finish                 // it reaches the end of its function
    | Recover                // its deferred function recovers a panic
    | Close                  // ... and closes shutdownDone

  predicate Enabled(s: State, a: Action) {
    match a
    case Enter => true
    case StartOnce(c) => c < |s.callers| && s.callers[c] == Entered
    case ReturnDone(c) => c < |s.callers| && s.callers[c] == Waiting && s.closes > 0
    case ReturnEarly(c) => c < |s.callers| && s.callers[c] == Waiting
    case Perform => s.worker.Running? && s.worker.next < |PROGRAM|
    case PanicIn => s.worker.Running? && s.worker.next < |PROGRAM|
    case PanicBetween => s.worker.Running?
    case Finish => s.worker == Running(|PROGRAM|)
    case Recover => s.worker == Unwinding
    case Close => s.worker == Ending
  }

  function Do(s: State, a: Action): State
    requires Enabled(s, a)
  {
    match a
    case Enter => s.(callers := s.callers + [Entered])
    case StartOnce(c) =>
      var t := s.(callers := s.callers[c := Waiting]);
      if s.once then t else t.(once := true, worker := Running(0))
    case ReturnDone(c) => s.(callers := s.callers[c := ReturnedDone(s.result)])
    case ReturnEarly(c) => s.(callers := s.callers[c := ReturnedEarly])
    case Perform =>
      var e := PROGRAM[s.worker.next];
      s.(begun := s.begun + [e], completed := s.completed + 1, worker := Running(s.worker.next + 1),
         closing := s.closing || e == MarkClosing,
         ready := s.ready && e != MarkNotReady,
         rejecting := s.rejecting || e == RejectNew)
    case PanicIn => s.(begun := s.begun + [PROGRAM[s.worker.next]], worker := Unwinding, panicked := true)
    case PanicBetween => s.(worker := Unwinding, panicked := true)
    case Finish => s.(result := Nil, worker := Ending)
    case Recover => s.(result := Panicked, worker := Ending)
    case Close => s.(closes := s.closes + 1, worker := Ended)
  }

  predicate IsRun(actions: seq<Action>)
    decreases |actions|, 0
  {
    actions == [] || (IsRun(actions[..|actions| - 1]) &&
                      Enabled(After(actions[..|actions| - 1]), actions[|actions| - 1]))
  }

  function After(actions: seq<Action>): State
    requires IsRun(actions)
    decreases |actions|, 1
  {
    if actions == [] then INIT else Do(After(actions[..|actions| - 1]), actions[|actions| - 1])
  }

  // ------------------------------------------------------------ the invariant

  /** The worker's position, what it has begun, and the flags it has set. */
  ghost predicate WorkerInOrder(s: State) {
    && s.completed <= |s.begun| <= |PROGRAM| && s.begun == PROGRAM[..|s.begun|]
    && (s.once <==> s.worker != Idle)
    && (s.worker == Idle ==> s.begun == [])
    && (s.worker.Running? ==> s.worker.next == s.completed == |s.begun|)
    && (s.closing <==> s.completed > 0)
    && (s.ready <==> s.completed <= 1)
    && (s.rejecting <==> s.completed > 5)
    && |s.begun| <= s.completed + 1
  }

  /** The result is settled before the channel closes, and says whether all events completed. */
  ghost predicate ResultSettled(s: State) {
    && s.closes == (if s.worker == Ended then 1 else 0)
    && (s.panicked ==> s.worker in {Unwinding, Ending, Ended})
    && (s.worker == Unwinding ==> s.panicked)
    && (s.worker == Ending || s.worker == Ended ==> (s.result == Nil <==> !s.panicked))
    && (s.worker == Ending || s.worker == Ended ==> (s.result == Nil ==> s.completed == |PROGRAM|))
    && (forall c | 0 <= c < |s.callers| && s.callers[c].ReturnedDone? ::
          s.worker == Ended && s.callers[c].result == s.result)
  }

  lemma KeepsOrder(s: State, a: Action)
    requires WorkerInOrder(s) && Enabled(s, a)
    ensures WorkerInOrder(Do(s, a))
  {
    assert PROGRAM[0] == MarkClosing && PROGRAM[1] == MarkNotReady && PROGRAM[5] == RejectNew;
    assert forall i | 0 <= i < |PROGRAM| ::
             (PROGRAM[i] == MarkClosing <==> i == 0) && (PROGRAM[i] == MarkNotReady <==> i == 1) &&
             (PROGRAM[i] == RejectNew <==> i == 5);
  }

  lemma KeepsResult(s: State, a: Action)
    requires WorkerInOrder(s) && ResultSettled(s) && Enabled(s, a)
    ensures ResultSettled(Do(s, a))
  {
  }

  lemma {:induction false} RunsKeepInv(actions: seq<Action>)
    requires IsRun(actions)
    ensures WorkerInOrder(After(actions)) && ResultSettled(After(actions))
    decreases |actions|
  {
    if actions != [] {
      var before := actions[..|actions| - 1];
      RunsKeepInv(before);
      KeepsOrder(After(before), actions[|actions| - 1]);
      KeepsResult(After(before), actions[|actions| - 1]);
    }
  }

  // ------------------------------------------------------------- the theorems

  /**
    In every run the worker's events are begun at most once and in order, each
    after the ones before it completed. Services are unregistered only once the
    process is marked closing and not ready, and protocols destroyed only once
    new requests are rejected.
  */
  lemma EventsInOrder(actions: seq<Action>)
    requires IsRun(actions)
    ensures var s := After(actions);
            && |s.begun| <= |PROGRAM| && s.begun == PROGRAM[..|s.begun|]
            && s.completed <= |s.begun| <= s.completed + 1
            && (UnregisterServices in s.begun ==> s.closing && !s.ready)
            && (DestroyProtocols in s.begun ==> s.rejecting)
  {
    RunsKeepInv(actions);
    var s := After(actions);
    assert forall i | 0 <= i < |PROGRAM| ::
             (PROGRAM[i] == UnregisterServices ==> i == 2) && (PROGRAM[i] == DestroyProtocols ==> i == 7);
  }

  /** The events that have run to their end. */
  function Completed(s: State): set<Event>
    requires s.completed <= |s.begun|
  {
    set e | e in s.begun[..s.completed]
  }

  /** The second event begins only when the first has run to its end. */
  predicate Follows(s: State, first: Event, second: Event)
    requires s.completed <= |s.begun|
  {
    second in s.begun ==> first in Completed(s)
  }

  lemma ProgramRepeatsNothing()
    ensures forall i, j | 0 <= i < j < |PROGRAM| :: PROGRAM[i] != PROGRAM[j]
    ensures forall e: Event :: e in PROGRAM
  {
    forall e: Event
      ensures e in PROGRAM
    {
      var i := match e
        case MarkClosing => 0 case MarkNotReady => 1 case UnregisterServices => 2 case NotifyConsumers => 3
        case AcceptAndWait => 4 case RejectNew => 5 case DrainRequests => 6 case DestroyProtocols => 7
        case RunCallbacks => 8;
      assert PROGRAM[i] == e;
    }
  }

  lemma FollowsAt(s: State, i: nat)
    requires WorkerInOrder(s) && i + 1 < |PROGRAM|
    requires forall i, j | 0 <= i < j < |PROGRAM| :: PROGRAM[i] != PROGRAM[j]
    ensures Follows(s, PROGRAM[i], PROGRAM[i + 1])
  {
    if PROGRAM[i + 1] in s.begun {
      var k :| 0 <= k < |s.begun| && s.begun[k] == PROGRAM[i + 1];
      assert PROGRAM[k] == s.begun[k];
      assert k == i + 1;
      assert s.begun[..s.completed][i] == PROGRAM[i];
    }
  }

  lemma AllCompleted(s: State)
    requires WorkerInOrder(s) && s.completed == |PROGRAM| && forall e: Event :: e in PROGRAM
    ensures forall e: Event :: e in Completed(s)
  {
    assert s.begun[..s.completed] == PROGRAM;
  }

  /**
    What each event may count on when it begins, in every run. The seven steps follow each
    other: mark closing, unregister, notify, wait, reject and drain, destroy, call back.
  */
  lemma StepsFollow(actions: seq<Action>)
    requires IsRun(actions)
    ensures After(actions).completed <= |After(actions).begun|
    ensures var s := After(actions);
            && (MarkNotReady in s.begun ==> MarkClosing in Completed(s))
            && (UnregisterServices in s.begun ==> MarkNotReady in Completed(s))
            && (NotifyConsumers in s.begun ==> UnregisterServices in Completed(s))
            && (AcceptAndWait in s.begun ==> NotifyConsumers in Completed(s))
            && (RejectNew in s.begun ==> AcceptAndWait in Completed(s))
            && (DrainRequests in s.begun ==> RejectNew in Completed(s))
            && (DestroyProtocols in s.begun ==> DrainRequests in Completed(s))
            && (RunCallbacks in s.begun ==> DestroyProtocols in Completed(s))
    ensures var s := After(actions);
            s.worker == Ended && s.result == Nil ==> forall e: Event :: e in Completed(s)
  {
    RunsKeepInv(actions);
    var s := After(actions);
    ProgramRepeatsNothing();
    forall i | 0 <= i < 8
      ensures Follows(s, PROGRAM[i], PROGRAM[i + 1])
    {
      FollowsAt(s, i);
    }
    if s.worker == Ended && s.result == Nil {
      AllCompleted(s);
    }
    assert Follows(s, PROGRAM[0], PROGRAM[0 + 1]) && Follows(s, PROGRAM[1], PROGRAM[1 + 1]);
    assert Follows(s, PROGRAM[2], PROGRAM[2 + 1]) && Follows(s, PROGRAM[3], PROGRAM[3 + 1]);
    assert Follows(s, PROGRAM[4], PROGRAM[4 + 1]) && Follows(s, PROGRAM[5], PROGRAM[5 + 1]);
    assert Follows(s, PROGRAM[6], PROGRAM[6 + 1]) && Follows(s, PROGRAM[7], PROGRAM[7 + 1]);
    assert PROGRAM[0] == MarkClosing && PROGRAM[1] == MarkNotReady && PROGRAM[2] == UnregisterServices;
    assert PROGRAM[3] == NotifyConsumers && PROGRAM[4] == AcceptAndWait && PROGRAM[5] == RejectNew;
    assert PROGRAM[6] == DrainRequests && PROGRAM[7] == DestroyProtocols && PROGRAM[8] == RunCallbacks;
  }

  /**
    In every run shutdownDone is closed at most once, and closed exactly when the
    worker has ended. Whoever returns through it gets the one result, which is nil
    exactly when the worker never panicked; then every event completed.
  */
  lemma OneResult(actions: seq<Action>)
    requires IsRun(actions)
    ensures var s := After(actions);
            && s.closes <= 1 && (s.closes == 1 <==> s.worker == Ended)
            && (forall c, d | 0 <= c < |s.callers| && 0 <= d < |s.callers| &&
                              s.callers[c].ReturnedDone? && s.callers[d].ReturnedDone? ::
                  s.callers[c] == s.callers[d])
            && (forall c | 0 <= c < |s.callers| && s.callers[c].ReturnedDone? ::
                  && (s.callers[c].result == Nil <==> !s.panicked)
                  && (s.callers[c].result == Nil ==> s.completed == |PROGRAM|))
  {
    RunsKeepInv(actions);
  }

  /** How far the worker is from its end. */
  function Remaining(w: Worker): nat {
    match w
    case Idle => |PROGRAM| + 5
    case Running(n) => if n <= |PROGRAM| then |PROGRAM| - n + 4 else 4
    case Unwinding => 2
    case Ending => 1
    case Ended => 0
  }

  predicate WorkerAction(a: Action) {
    a.Perform? || a.PanicIn? || a.PanicBetween? || a.Finish? || a.Recover? || a.Close?
  }

  /** One step: worker actions bring the worker closer to its end, others leave it alone. */
  lemma StepTowardsEnd(s: State, a: Action)
    requires WorkerInOrder(s) && Enabled(s, a)
    ensures WorkerAction(a) ==> Remaining(Do(s, a).worker) < Remaining(s.worker)
    ensures !WorkerAction(a) && s.once ==> Do(s, a).worker == s.worker
  {
  }

  /** A worker that has started and not ended can move. */
  lemma WorkerCanMove(s: State) returns (a: Action)
    requires WorkerInOrder(s) && ResultSettled(s) && s.once && s.closes == 0
    ensures WorkerAction(a) && Enabled(s, a)
  {
    a := if s.worker.Running? then (if s.worker.next < |PROGRAM| then Perform else Finish)
         else if s.worker == Unwinding then Recover else Close;
  }

  /**
    Once started, the worker can always move until it has closed the channel, each
    move brings it strictly closer, and no caller can hold it up or set it back.
  */
  lemma WorkerEnds(actions: seq<Action>)
    requires IsRun(actions)
    ensures var s := After(actions);
            s.once && s.closes == 0 ==> exists a: Action :: WorkerAction(a) && Enabled(s, a)
    ensures forall a: Action | Enabled(After(actions), a) ::
              if WorkerAction(a) then Remaining(Do(After(actions), a).worker) < Remaining(After(actions).worker)
              else After(actions).once ==> Do(After(actions), a).worker == After(actions).worker
  {
    RunsKeepInv(actions);
    var s := After(actions);
    if s.once && s.closes == 0 {
      var a := WorkerCanMove(s);
    }
    forall a: Action | Enabled(s, a)
      ensures if WorkerAction(a) then Remaining(Do(s, a).worker) < Remaining(s.worker)
              else s.once ==> Do(s, a).worker == s.worker
    {
      StepTowardsEnd(s, a);
    }
  }
}
