/**
  Closing events handled concurrently (graceful_shutdown/closing_registry.go and
  closing_ack.go). Registration holds the lock for one step; an event handler takes
  a snapshot of the removers, calls them one by one, and then updates the counters
  of its source with separate atomic operations. Counters are objects of their own:
  two handlers may both create one for a new source, and only one is kept.
*/
module ClosingRuns {
  import opened Options
  import opened Closing

  datatype Pc =
    | Arrived | Calling | Recording | Creating
    | Counting(ref: nat) | Tallying(ref: nat) | Finished

  /**
    One handler; `answers` are what the removers called so far returned. `due` is
    history: the removers of its service that were live when it took its snapshot.
  */
  datatype Thread = Thread(
    event: ClosingEvent, snapshot: seq<Remover>, due: set<Remover>, answers: seq<bool>, removed: bool, pc: Pc)

  /** `live` is the reference: the removers registered and not since unregistered. */
  datatype State = State(
    removers: Removers, live: set<(string, Remover)>,
    counters: map<string, nat>, objects: seq<Counter>, threads: seq<Thread>)

  const INIT := State(map[], {}, map[], [], [])

  datatype Action =
    | Register(service: string, r: Remover)
    | Unregister(service: string, r: Remover)
    | Arrive(event: ClosingEvent)
    | Skip(t: nat)                               // an incomplete event calls no remover
    | Snapshot(t: nat, found: seq<Remover>)      // Find, in whatever order the map yields
    | Call(t: nat, answer: bool)                 // RemoveClosingInstance of the next remover
    | EndCalls(t: nat)
    | LoadCounter(t: nat)                        // record: counters.Load, or return if not active
    | StoreCounter(t: nat)                       // counters.LoadOrStore with a new counter
    | AddReceived(t: nat)
    | AddOutcome(t: nat)

  predicate Incomplete(e: ClosingEvent) {
    e.instanceKey == "" || e.serviceKey == ""
  }

  ghost predicate Enabled(s: State, a: Action) {
    match a
    case Register(_, _) => true
    case Unregister(_, _) => true
    case Arrive(_) => true
    case Skip(t) => t < |s.threads| && s.threads[t].pc == Arrived && Incomplete(s.threads[t].event)
    case Snapshot(t, found) =>
      t < |s.threads| && s.threads[t].pc == Arrived && !Incomplete(s.threads[t].event) &&
      Lists(found, s.removers, s.threads[t].event.serviceKey)
    case Call(t, _) =>
      t < |s.threads| && s.threads[t].pc == Calling && |s.threads[t].answers| < |s.threads[t].snapshot|
    case EndCalls(t) =>
      t < |s.threads| && s.threads[t].pc == Calling && |s.threads[t].answers| == |s.threads[t].snapshot|
    case LoadCounter(t) => t < |s.threads| && s.threads[t].pc == Recording
    case StoreCounter(t) => t < |s.threads| && s.threads[t].pc == Creating
    case AddReceived(t) => t < |s.threads| && s.threads[t].pc.Counting? && s.threads[t].pc.ref < |s.objects|
    case AddOutcome(t) => t < |s.threads| && s.threads[t].pc.Tallying? && s.threads[t].pc.ref < |s.objects|
  }

  function To(s: State, t: nat, th: Thread): State
    requires t < |s.threads|
  {
    s.(threads := s.threads[t := th])
  }

  /** The live removers of a service. */
  function LiveFor(s: State, service: string): set<Remover> {
    set x | x in s.live && x.0 == service :: x.1
  }

  ghost function Do(s: State, a: Action): State
    requires Enabled(s, a)
  {
    match a
    case Register(service, r) =>
      s.(removers := Registered(s.removers, service, r),
         live := if service == "" || r.ptr == NO_KEY then s.live else s.live + {(service, r)})
    case Unregister(service, r) =>
      s.(removers := Unregistered(s.removers, service, r), live := s.live - {(service, r)})
    case Arrive(event) => s.(threads := s.threads + [Thread(event, [], {}, [], false, Arrived)])
    case Skip(t) => To(s, t, s.threads[t].(pc := Recording))
    case Snapshot(t, found) =>
      To(s, t, s.threads[t].(snapshot := found, due := LiveFor(s, s.threads[t].event.serviceKey), pc := Calling))
    case Call(t, answer) =>
      var th := s.threads[t];
      To(s, t, th.(answers := th.answers + [answer], removed := th.removed || answer))
    case EndCalls(t) => To(s, t, s.threads[t].(pc := Recording))
    case LoadCounter(t) =>
      var source := s.threads[t].event.source;
      To(s, t, s.threads[t].(pc := if !IsActive(source) then Finished
                                   else if source in s.counters then Counting(s.counters[source]) else Creating))
    case StoreCounter(t) =>
      var source := s.threads[t].event.source;
      var ref := if source in s.counters then s.counters[source] else |s.objects|;
      To(s.(objects := s.objects + [Counter(0, 0, 0)], counters := s.counters[source := ref]), t,
         s.threads[t].(pc := Counting(ref)))
    case AddReceived(t) =>
      var ref := s.threads[t].pc.ref;
      To(s.(objects := s.objects[ref := s.objects[ref].(received := s.objects[ref].received + 1)]), t,
         s.threads[t].(pc := Tallying(ref)))
    case AddOutcome(t) =>
      var ref := s.threads[t].pc.ref;
      To(s.(objects := s.objects[ref := Tally(s.objects[ref], s.threads[t].removed)]), t,
         s.threads[t].(pc := Finished))
  }

  ghost predicate IsRun(actions: seq<Action>)
    decreases |actions|, 0
  {
    actions == [] || (IsRun(actions[..|actions| - 1]) &&
                      Enabled(After(actions[..|actions| - 1]), actions[|actions| - 1]))
  }

  ghost function After(actions: seq<Action>): State
    requires IsRun(actions)
    decreases |actions|, 1
  {
    if actions == [] then INIT else Do(After(actions[..|actions| - 1]), actions[|actions| - 1])
  }

  // ------------------------------------------------------------ the registry

  /** What is filed is what is live. */
  ghost predicate FilesLive(s: State) {
    && WellFiled(s.removers)
    && forall service: string, r: Remover :: r in Filed(s.removers, service) <==> (service, r) in s.live
  }

  lemma KeepsFiles(s: State, a: Action)
    requires FilesLive(s) && Enabled(s, a)
    ensures FilesLive(Do(s, a))
  {
    if a.Register? || a.Unregister? {
      var t := Do(s, a);
      StaysWellFiled(s.removers, a.service, a.r);
      forall service: string, r: Remover
        ensures r in Filed(t.removers, service) <==> (service, r) in t.live
      {
        FiledAfterRegister(s.removers, a.service, a.r, service);
        FiledAfterUnregister(s.removers, a.service, a.r, service);
        if a.service == "" || a.r.ptr == NO_KEY {
          NotLive(s, a.service, a.r);
        }
      }
    }
  }

  lemma NotLive(s: State, service: string, r: Remover)
    requires FilesLive(s) && (service == "" || r.ptr == NO_KEY)
    ensures (service, r) !in s.live
  {
    assert r in Filed(s.removers, service) <==> (service, r) in s.live;
  }

  // ------------------------------------------------------------- the handlers

  /** A handler's answers come from its snapshot in order, and `removed` sums them up. */
  ghost predicate AnswersKept(th: Thread) {
    && |th.answers| <= |th.snapshot|
    && (th.removed <==> true in th.answers)
    && (th.pc == Arrived ==> th.snapshot == [])
    && (th.pc != Arrived && th.pc != Calling ==> |th.answers| == |th.snapshot|)
    && (Incomplete(th.event) ==> th.snapshot == [])
  }

  /** Counting handlers hold the counter on file for their source. */
  ghost predicate HoldsCounter(s: State, th: Thread) {
    && (th.pc.Counting? || th.pc.Tallying? ==> Lookup(s.counters, th.event.source) == Some(th.pc.ref))
    && (th.pc.Creating? || th.pc.Counting? || th.pc.Tallying? ==> IsActive(th.event.source))
  }

  /** A snapshot lists exactly the removers that were due, each once. */
  ghost predicate SnapshotExact(th: Thread) {
    NoRepeats(th.snapshot) && (set r | r in th.snapshot) == th.due
  }

  ghost predicate SnapshotsExact(s: State) {
    forall t | 0 <= t < |s.threads| :: SnapshotExact(s.threads[t])
  }

  lemma KeepsSnapshots(s: State, a: Action)
    requires FilesLive(s) && SnapshotsExact(s) && Enabled(s, a)
    ensures SnapshotsExact(Do(s, a))
  {
    var n := Do(s, a);
    forall t | 0 <= t < |n.threads|
      ensures SnapshotExact(n.threads[t])
    {
      if t < |s.threads| {
        assert SnapshotExact(s.threads[t]);
        if a.Snapshot? && a.t == t {
          FiledAreLive(s, s.threads[t].event.serviceKey);
        }
      }
    }
  }

  lemma FiledAreLive(s: State, service: string)
    requires FilesLive(s)
    ensures Filed(s.removers, service) == LiveFor(s, service)
  {
    forall r: Remover
      ensures r in Filed(s.removers, service) <==> r in LiveFor(s, service)
    {
      assert r in Filed(s.removers, service) <==> (service, r) in s.live;
      assert r in LiveFor(s, service) <==> (service, r) in s.live;
    }
  }

  ghost predicate CountersDistinct(s: State) {
    && (forall a <- s.counters :: s.counters[a] < |s.objects|)
    && (forall a, b | a in s.counters && b in s.counters && s.counters[a] == s.counters[b] :: a == b)
  }

  ghost predicate ThreadsOk(s: State) {
    forall t | 0 <= t < |s.threads| :: AnswersKept(s.threads[t]) && HoldsCounter(s, s.threads[t])
  }

  lemma KeepsDistinct(s: State, a: Action)
    requires CountersDistinct(s) && Enabled(s, a)
    ensures CountersDistinct(Do(s, a))
  {
  }

  lemma KeepsThread(s: State, a: Action, t: nat)
    requires Enabled(s, a) && t < |s.threads|
    requires AnswersKept(s.threads[t]) && HoldsCounter(s, s.threads[t])
    ensures AnswersKept(Do(s, a).threads[t]) && HoldsCounter(Do(s, a), Do(s, a).threads[t])
  {
  }

  lemma KeepsThreads(s: State, a: Action)
    requires ThreadsOk(s) && CountersDistinct(s) && Enabled(s, a)
    ensures ThreadsOk(Do(s, a)) && CountersDistinct(Do(s, a))
  {
    var n := Do(s, a);
    KeepsDistinct(s, a);
    forall t | 0 <= t < |n.threads|
      ensures AnswersKept(n.threads[t]) && HoldsCounter(n, n.threads[t])
    {
      if t < |s.threads| {
        KeepsThread(s, a, t);
      }
    }
  }

  // ------------------------------------------------------------- the counters

  /** The part of a handler's state that the counts of its source depend on. */
  datatype Phase = Uncounted | Between | Through(removed: bool)

  function PhaseOf(th: Thread): Phase {
    if th.pc.Tallying? then Between else if th.pc.Finished? then Through(th.removed) else Uncounted
  }

  /** The handlers of `source` in a phase. */
  ghost function Having(s: State, source: string, p: Phase): set<nat> {
    set t: nat | t < |s.threads| && s.threads[t].event.source == source && PhaseOf(s.threads[t]) == p
  }

  /** The counts of a source; one that has no counter yet counts as zero. */
  ghost function CountOf(s: State, source: string): Counter
    requires CountersDistinct(s)
  {
    if source in s.counters then s.objects[s.counters[source]] else Counter(0, 0, 0)
  }

  /** The counter of a source is the number of its handlers in each phase past the first count. */
  ghost predicate Counted(s: State, source: string)
    requires CountersDistinct(s)
  {
    var between, removed, missed :=
      |Having(s, source, Between)|, |Having(s, source, Through(true))|, |Having(s, source, Through(false))|;
    CountOf(s, source) == Counter(between + removed + missed, removed, missed)
  }

  ghost predicate AllCounted(s: State) {
    CountersDistinct(s) && forall source: string | IsActive(source) :: Counted(s, source)
  }

  /** How the handlers in a phase change when one handler moves on. */
  lemma HavingAfterMove(s: State, n: State, t: nat, source: string, p: Phase)
    requires t < |s.threads| == |n.threads| && n.threads == s.threads[t := n.threads[t]]
    requires n.threads[t].event == s.threads[t].event
    ensures Having(n, source, p) ==
            (Having(s, source, p) - {t}) +
            if s.threads[t].event.source == source && PhaseOf(n.threads[t]) == p then {t} else {}
    ensures t in Having(s, source, p) <==> s.threads[t].event.source == source && PhaseOf(s.threads[t]) == p
  {
  }

  /** A new handler is in no phase that counts. */
  lemma HavingAfterArrival(s: State, n: State, th: Thread, source: string, p: Phase)
    requires n.threads == s.threads + [th] && PhaseOf(th) == Uncounted && p != Uncounted
    ensures Having(n, source, p) == Having(s, source, p)
  {
  }

  /** Steps that count nothing for a source leave its handlers' phases alone. */
  lemma OtherStepKeepsPhases(s: State, a: Action, source: string, p: Phase)
    requires Enabled(s, a) && IsActive(source) && p != Uncounted
    requires a.AddReceived? || a.AddOutcome? ==> s.threads[a.t].event.source != source
    ensures Having(Do(s, a), source, p) == Having(s, source, p)
  {
    var n := Do(s, a);
    if a.Arrive? {
      HavingAfterArrival(s, n, Thread(a.event, [], {}, [], false, Arrived), source, p);
    } else if !a.Register? && !a.Unregister? {
      HavingAfterMove(s, n, a.t, source, p);
    }
  }

  lemma OtherStepKeepsCount(s: State, a: Action, source: string)
    requires ThreadsOk(s) && CountersDistinct(s) && Enabled(s, a) && CountersDistinct(Do(s, a))
    requires a.AddReceived? || a.AddOutcome? ==> s.threads[a.t].event.source != source
    ensures CountOf(Do(s, a), source) == CountOf(s, source)
  {
    if a.AddReceived? || a.AddOutcome? {
      assert HoldsCounter(s, s.threads[a.t]);
    }
  }

  /** The same in numbers. */
  lemma NumberAfterMove(s: State, n: State, t: nat, source: string, p: Phase)
    requires t < |s.threads| == |n.threads| && n.threads == s.threads[t := n.threads[t]]
    requires n.threads[t].event == s.threads[t].event && s.threads[t].event.source == source
    ensures |Having(n, source, p)| == |Having(s, source, p)|
              - (if PhaseOf(s.threads[t]) == p then 1 else 0) + (if PhaseOf(n.threads[t]) == p then 1 else 0)
  {
    HavingAfterMove(s, n, t, source, p);
    var was, now := Having(s, source, p), Having(n, source, p);
    if t in was {
      assert |was - {t}| == |was| - 1;
    } else {
      assert was - {t} == was;
    }
  }

  lemma CountingStep(s: State, a: Action, source: string)
    requires ThreadsOk(s) && CountersDistinct(s) && Counted(s, source)
    requires (a.AddReceived? || a.AddOutcome?) && Enabled(s, a) && s.threads[a.t].event.source == source
    requires CountersDistinct(Do(s, a))
    ensures Counted(Do(s, a), source)
  {
    var n := Do(s, a);
    assert HoldsCounter(s, s.threads[a.t]);
    NumberAfterMove(s, n, a.t, source, Between);
    NumberAfterMove(s, n, a.t, source, Through(true));
    NumberAfterMove(s, n, a.t, source, Through(false));
  }

  lemma KeepsCounts(s: State, a: Action)
    requires ThreadsOk(s) && AllCounted(s) && Enabled(s, a)
    ensures AllCounted(Do(s, a))
  {
    var n := Do(s, a);
    KeepsThreads(s, a);
    forall source: string | IsActive(source)
      ensures Counted(n, source)
    {
      assert Counted(s, source);
      if (a.AddReceived? || a.AddOutcome?) && s.threads[a.t].event.source == source {
        CountingStep(s, a, source);
      } else {
        OtherStepKeepsPhases(s, a, source, Between);
        OtherStepKeepsPhases(s, a, source, Through(true));
        OtherStepKeepsPhases(s, a, source, Through(false));
        OtherStepKeepsCount(s, a, source);
      }
    }
  }

  /** Only active sources have a counter. */
  ghost predicate OnlyActiveCounted(s: State) {
    forall source <- s.counters :: IsActive(source)
  }

  lemma KeepsOnlyActive(s: State, a: Action)
    requires ThreadsOk(s) && OnlyActiveCounted(s) && Enabled(s, a)
    ensures OnlyActiveCounted(Do(s, a))
  {
    if a.StoreCounter? {
      assert HoldsCounter(s, s.threads[a.t]);
    }
  }

  /** A source that is not active is never counted, in any run. */
  lemma {:induction false} InactiveIsNotCounted(actions: seq<Action>)
    requires IsRun(actions)
    ensures OnlyActiveCounted(After(actions))
    decreases |actions|
  {
    if actions != [] {
      var before := actions[..|actions| - 1];
      InactiveIsNotCounted(before);
      RunsKeepInv(before);
      KeepsOnlyActive(After(before), actions[|actions| - 1]);
    }
  }

  lemma {:induction false} RunsKeepInv(actions: seq<Action>)
    requires IsRun(actions)
    ensures var s := After(actions); FilesLive(s) && SnapshotsExact(s) && ThreadsOk(s) && AllCounted(s)
    decreases |actions|
  {
    if actions == [] {
      assert forall source: string, p: Phase :: Having(INIT, source, p) == {};
    } else {
      var before, a := actions[..|actions| - 1], actions[|actions| - 1];
      RunsKeepInv(before);
      KeepsFiles(After(before), a);
      KeepsSnapshots(After(before), a);
      KeepsThreads(After(before), a);
      KeepsCounts(After(before), a);
    }
  }

  // ------------------------------------------------------------- the theorems

  /** Whatever has happened, Find lists exactly the removers registered and not since unregistered. */
  lemma FindListsLive(actions: seq<Action>, service: string, found: seq<Remover>)
    requires IsRun(actions) && Lists(found, After(actions).removers, service)
    ensures forall r: Remover :: r in found <==> (service, r) in After(actions).live
    ensures NoRepeats(found)
  {
    RunsKeepInv(actions);
    var s := After(actions);
    forall r: Remover
      ensures r in found <==> (service, r) in s.live
    {
      assert r in found <==> r in (set x | x in found);
      assert r in Filed(s.removers, service) <==> (service, r) in s.live;
    }
  }

  /**
    A handler that has finished has called, once each, exactly the removers that were
    live when it took its snapshot, and reports whether any call removed.
  */
  lemma HandlerCallsAll(actions: seq<Action>, t: nat)
    requires IsRun(actions) && t < |After(actions).threads| && After(actions).threads[t].pc.Finished?
    ensures var th := After(actions).threads[t];
            && |th.answers| == |th.snapshot| && (th.removed <==> true in th.answers)
            && NoRepeats(th.snapshot) && (forall r: Remover :: r in th.snapshot <==> r in th.due)
            && (th.event.instanceKey == "" || th.event.serviceKey == "" ==> th.snapshot == [] && !th.removed)
  {
    RunsKeepInv(actions);
    var th := After(actions).threads[t];
    assert AnswersKept(th) && SnapshotExact(th);
    assert forall r: Remover :: r in th.snapshot <==> r in (set x | x in th.snapshot);
  }

  lemma LastStep(run: seq<Action>, before: seq<Action>, a: Action)
    requires IsRun(run) && run != [] && before == run[..|run| - 1] && a == run[|run| - 1]
    ensures IsRun(before) && Enabled(After(before), a) && After(run) == Do(After(before), a)
  {
  }

  /** What is registered stays live until it is unregistered. */
  lemma {:induction false} StaysLive(actions: seq<Action>, i: nat, service: string, r: Remover)
    requires IsRun(actions) && i < |actions| && actions[i] == Register(service, r) && Effective(service, r)
    requires forall k | i < k < |actions| :: actions[k] != Unregister(service, r)
    ensures (service, r) in After(actions).live
    decreases |actions|
  {
    var before, a := actions[..|actions| - 1], actions[|actions| - 1];
    LastStep(actions, before, a);
    if i < |before| {
      StaysLive(before, i, service, r);
    }
  }

  lemma SnapshotKept(s: State, a: Action, t: nat)
    requires Enabled(s, a) && t < |s.threads| && s.threads[t].pc != Arrived
    ensures t < |Do(s, a).threads|
    ensures var th := Do(s, a).threads[t];
            th.event == s.threads[t].event && th.snapshot == s.threads[t].snapshot && th.pc != Arrived
  {
  }

  /** From its snapshot on a handler keeps it. */
  lemma {:induction false} SnapshotStays(actions: seq<Action>, j: nat, t: nat, found: seq<Remover>)
    requires IsRun(actions) && j < |actions| && actions[j] == Snapshot(t, found)
    ensures t < |After(actions).threads|
    ensures After(actions).threads[t].snapshot == found && After(actions).threads[t].pc != Arrived
    decreases |actions|
  {
    var before, a := actions[..|actions| - 1], actions[|actions| - 1];
    LastStep(actions, before, a);
    if j < |before| {
      SnapshotStays(before, j, t, found);
      SnapshotKept(After(before), a, t);
    }
  }

  /** A remover registered before a snapshot of its service, and not unregistered in between, is in it. */
  lemma {:induction false} RegisteredIsDue(
      actions: seq<Action>, i: nat, j: nat, t: nat, found: seq<Remover>, service: string, r: Remover)
    requires IsRun(actions) && i < j < |actions| && actions[i] == Register(service, r) && Effective(service, r)
    requires forall k | i < k < j :: actions[k] != Unregister(service, r)
    requires actions[j] == Snapshot(t, found)
    requires t < |After(actions).threads| && After(actions).threads[t].event.serviceKey == service
    ensures r in found
    decreases |actions|
  {
    var before, a := actions[..|actions| - 1], actions[|actions| - 1];
    LastStep(actions, before, a);
    if j < |before| {
      SnapshotStays(before, j, t, found);
      SnapshotKept(After(before), a, t);
      RegisteredIsDue(before, i, j, t, found, service, r);
    } else {
      StaysLive(before, i, service, r);
      FindListsLive(before, service, found);
    }
  }

  /** A finished handler has called such a remover, and once. */
  lemma RegisteredIsCalled(
      actions: seq<Action>, i: nat, j: nat, t: nat, found: seq<Remover>, service: string, r: Remover)
    requires IsRun(actions) && i < j < |actions| && actions[i] == Register(service, r) && Effective(service, r)
    requires forall k | i < k < j :: actions[k] != Unregister(service, r)
    requires actions[j] == Snapshot(t, found)
    requires t < |After(actions).threads| && After(actions).threads[t].event.serviceKey == service
    requires After(actions).threads[t].pc.Finished?
    ensures var th := After(actions).threads[t];
            r in th.snapshot && NoRepeats(th.snapshot) && |th.answers| == |th.snapshot|
  {
    RegisteredIsDue(actions, i, j, t, found, service, r);
    SnapshotStays(actions, j, t, found);
    HandlerCallsAll(actions, t);
  }

  /**
    For each active source, at every moment: removed and missed are the numbers of
    handlers finished either way, and received is their sum plus the handlers
    between their two counts.
  */
  lemma AcknowledgementsBalance(actions: seq<Action>, source: string)
    requires IsRun(actions) && IsActive(source)
    ensures CountersDistinct(After(actions))
    ensures var s := After(actions);
            var c := CountOf(s, source);
            && c.removed == |Having(s, source, Through(true))|
            && c.missed == |Having(s, source, Through(false))|
            && c.received == c.removed + c.missed + |Having(s, source, Between)|
  {
    RunsKeepInv(actions);
    assert Counted(After(actions), source);
  }
}
