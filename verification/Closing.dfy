/**
  Closing notices on the consumer side (graceful_shutdown/closing_registry.go and
  closing_ack.go): a registry of directories that can drop an instance, handlers of
  closing events, and counters of active notices. Handlers run concurrently with
  each other and with registration; every atomic operation is a step of its own.
*/
module Closing {

  datatype Pointer = Pointer(address: nat)

  /** `removerKey` of nil, or of anything that is not held by pointer. */
  const NO_KEY := Pointer(0)

  /** A directory that can drop a closing instance; `ptr` is its `removerKey`. */
  datatype Remover = Remover(ptr: Pointer)

  datatype ClosingEvent = ClosingEvent(source: string, instanceKey: string, serviceKey: string)

  type Removers = map<string, map<Pointer, Remover>>

  const ACTIVE_SUFFIX := "-health-watch"

  /** `isActiveClosingSource`. */
  predicate IsActive(source: string) {
    |source| >= |ACTIVE_SUFFIX| && source[|source| - |ACTIVE_SUFFIX|..] == ACTIVE_SUFFIX
  }

  /** An active source is one whose name ends in "-health-watch". */
  lemma IsActiveIff(source: string)
    ensures IsActive(source) <==> exists name: string :: source == name + "-health-watch"
  {
    if IsActive(source) {
      var name := source[..|source| - |ACTIVE_SUFFIX|];
      assert source == name + "-health-watch";
    }
    if name: string :| source == name + "-health-watch" {
      assert source[|name|..] == ACTIVE_SUFFIX;
    }
  }

  // ------------------------------------------------------------ the registry

  /** `Register`. */
  function Registered(m: Removers, service: string, r: Remover): Removers {
    if service == "" || r.ptr == NO_KEY then m
    else m[service := (if service in m then m[service] else map[])[r.ptr := r]]
  }

  /** `Unregister`: a service left without removers goes too. */
  function Unregistered(m: Removers, service: string, r: Remover): Removers {
    if service == "" || r.ptr == NO_KEY || service !in m then m
    else
      var left := m[service] - {r.ptr};
      if |left| == 0 then m - {service} else m[service := left]
  }

  /** The removers filed for a service. */
  function Filed(m: Removers, service: string): set<Remover> {
    if service in m then m[service].Values else {}
  }

  ghost predicate NoRepeats(list: seq<Remover>) {
    forall i, j | 0 <= i < j < |list| :: list[i] != list[j]
  }

  /** `list` is the removers of a service, each once, in some order. */
  ghost predicate Lists(list: seq<Remover>, m: Removers, service: string) {
    NoRepeats(list) && (set r | r in list) == if service == "" then {} else Filed(m, service)
  }

  /** Removers are filed under their own pointer, and no service is filed without one. */
  ghost predicate WellFiled(m: Removers) {
    forall s <- m :: s != "" && m[s] != map[] && ByPointer(m[s])
  }

  ghost predicate ByPointer(entries: map<Pointer, Remover>) {
    forall p <- entries :: p != NO_KEY && entries[p].ptr == p
  }

  class ClosingRegistry {
    var removers: Removers

    constructor ()
      ensures removers == map[]
    {
      removers := map[];
    }

    method Register(service: string, r: Remover)
      modifies this
      ensures removers == Registered(old(removers), service, r)
    {
      if service == "" || r.ptr == NO_KEY {
        return;
      }
      if service !in removers {
        removers := removers[service := map[]];
      }
      removers := removers[service := removers[service][r.ptr := r]];
    }

    method Unregister(service: string, r: Remover)
      modifies this
      ensures removers == Unregistered(old(removers), service, r)
    {
      if service == "" || r.ptr == NO_KEY {
        return;
      }
      if service !in removers {
        return;
      }
      var entries := removers[service] - {r.ptr};
      if |entries| == 0 {
        removers := removers - {service};
      } else {
        removers := removers[service := entries];
      }
    }

    method Find(service: string) returns (list: seq<Remover>)
      requires WellFiled(removers)
      ensures Lists(list, removers, service)
    {
      list := [];
      if service == "" || service !in removers {
        return;
      }
      var entries := removers[service];
      var todo := entries.Keys;
      while todo != {}
        invariant todo <= entries.Keys
        invariant NoRepeats(list)
        invariant forall r: Remover :: r in list <==> r.ptr in entries.Keys - todo && entries[r.ptr] == r
      {
        var key :| key in todo;
        list := list + [entries[key]];
        todo := todo - {key};
      }
    }
  }

  lemma StaysWellFiled(m: Removers, service: string, r: Remover)
    requires WellFiled(m)
    ensures WellFiled(Registered(m, service, r)) && WellFiled(Unregistered(m, service, r))
  {
    if service != "" && r.ptr != NO_KEY {
      var was := if service in m then m[service] else map[];
      assert ByPointer(was) && ByPointer(was[r.ptr := r]) && ByPointer(was - {r.ptr});
      assert r.ptr in was[r.ptr := r];
    }
  }

  /** A registration or its removal says something: neither the service nor the pointer is empty. */
  predicate Effective(service: string, r: Remover) {
    service != "" && r.ptr != NO_KEY
  }

  /** Registering adds to the live removers of a service. */
  lemma FiledAfterRegister(m: Removers, service: string, r: Remover, other: string)
    requires WellFiled(m)
    ensures Filed(Registered(m, service, r), other) ==
            if other == service && Effective(service, r) then Filed(m, other) + {r} else Filed(m, other)
  {
    if other == service && Effective(service, r) {
      var was: map<Pointer, Remover> := if service in m then m[service] else map[];
      ValuesByPointer(was, r);
      assert Filed(m, other) == was.Values;
    }
  }

  /** Unregistering takes away. */
  lemma FiledAfterUnregister(m: Removers, service: string, r: Remover, other: string)
    requires WellFiled(m)
    ensures Filed(Unregistered(m, service, r), other) ==
            if other == service && Effective(service, r) then Filed(m, other) - {r} else Filed(m, other)
  {
    if other == service && Effective(service, r) {
      var was: map<Pointer, Remover> := if service in m then m[service] else map[];
      ValuesByPointer(was, r);
      assert Filed(m, other) == was.Values;
    }
  }

  lemma ValuesByPointer(entries: map<Pointer, Remover>, r: Remover)
    requires ByPointer(entries)
    ensures entries[r.ptr := r].Values == entries.Values + {r}
    ensures (entries - {r.ptr}).Values == entries.Values - {r}
  {
    var more, less := entries[r.ptr := r], entries - {r.ptr};
    forall x | x in entries.Values + {r}
      ensures x in more.Values
    {
      assert x.ptr in more && more[x.ptr] == x;
    }
    forall x | x in entries.Values - {r}
      ensures x in less.Values
    {
      assert x.ptr in less && less[x.ptr] == x;
    }
  }

  // -------------------------------------------------------- counters in place

  /** The acknowledgement counters of one source. */
  datatype Counter = Counter(received: nat, removed: nat, missed: nat)

  function Tally(c: Counter, removed: bool): Counter {
    if removed then c.(removed := c.removed + 1) else c.(missed := c.missed + 1)
  }

  /** What one undisturbed `record` does to the counters. */
  function Recorded(counters: map<string, Counter>, source: string, removed: bool): map<string, Counter> {
    if !IsActive(source) then counters
    else
      var c := if source in counters then counters[source] else Counter(0, 0, 0);
      counters[source := Tally(c.(received := c.received + 1), removed)]
  }

  class AckTracker {
    var counters: map<string, Counter>

    constructor ()
      ensures counters == map[]
    {
      counters := map[];
    }

    method Record(source: string, removed: bool)
      modifies this
      ensures counters == Recorded(old(counters), source, removed)
      ensures !IsActive(source) ==> counters == old(counters)
      ensures IsActive(source) ==>
                var was := if source in old(counters) then old(counters)[source] else Counter(0, 0, 0);
                && counters.Keys == old(counters).Keys + {source}
                && counters[source].received == was.received + 1
                && counters[source].removed == was.removed + (if removed then 1 else 0)
                && counters[source].missed == was.missed + (if removed then 0 else 1)
                && (forall s <- old(counters) :: s != source ==> counters[s] == old(counters)[s])
    {
      if !IsActive(source) {
        return;
      }
      if source !in counters {
        counters := counters[source := Counter(0, 0, 0)];
      }
      counters := counters[source := counters[source].(received := counters[source].received + 1)];
      if removed {
        counters := counters[source := counters[source].(removed := counters[source].removed + 1)];
        return;
      }
      counters := counters[source := counters[source].(missed := counters[source].missed + 1)];
    }
  }

  /**
    `HandleClosingEvent` when nothing else runs: an event that is complete reaches
    every remover of its service once, and it reports whether any of them removed.
    The removers' answers are the environment.
  */
  method HandleClosingEvent(
      registry: ClosingRegistry?, tracker: AckTracker, event: ClosingEvent, answer: Remover -> bool)
    returns (removed: bool, called: seq<Remover>)
    requires registry != null ==> WellFiled(registry.removers)
    modifies tracker
    ensures tracker.counters == Recorded(old(tracker.counters), event.source, removed)
    ensures registry == null || event.instanceKey == "" || event.serviceKey == "" ==> !removed && called == []
    ensures registry != null && event.instanceKey != "" && event.serviceKey != "" ==>
              && Lists(called, registry.removers, event.serviceKey)
              && (removed <==> exists r <- Filed(registry.removers, event.serviceKey) :: answer(r))
  {
    if registry == null || event.instanceKey == "" || event.serviceKey == "" {
      tracker.Record(event.source, false);
      return false, [];
    }
    removed := false;
    called := registry.Find(event.serviceKey);
    for i := 0 to |called|
      invariant removed <==> exists j | 0 <= j < i :: answer(called[j])
    {
      if answer(called[i]) {
        removed := true;
      }
    }
    assert forall r: Remover :: r in called <==> r in Filed(registry.removers, event.serviceKey);
    tracker.Record(event.source, removed);
  }
}
