/**
  Requests waiting for their responses (remoting/exchange.go and
  remoting/exchange_client.go). Client calls take an ID from a shared sequence and
  park a pending response in a shared table; incoming responses remove it and wake
  the caller, and callers that fail remove it themselves. The heartbeats of a session
  (remoting/getty/listener.go) share the sequence and the table. The transport is the
  environment: it may fail, succeed or deliver anything at any time.
*/
module Exchange {
  import opened Options

  /** What a call returns; an asynchronous one returns the whole response. */
  datatype Rest = Payload(value: int) | Whole(response: Response)

  datatype RpcResult = RpcResult(rest: Rest, attrs: int, err: Option<string>)

  datatype Response = Response(id: int, error: Option<string>, result: Option<RpcResult>)

  /** The response a pending object starts with. */
  const EMPTY := Response(0, None, None)

  /** A pending response object; the two counters record closes of Done and callback calls. */
  datatype Pending = Pending(
    seqId: int, hasCallback: bool, response: Response, err: Option<string>, closes: nat, callbacks: nat)
  {
    function Wakes(): nat { closes + callbacks }
  }

  /** What all threads share: the ID sequence, the table, and the objects it points to. */
  datatype Shared = Shared(sequence: int, table: map<int, nat>, objects: seq<Pending>)

  // ------------------------------------------------------- atomic operations

  /** A new pending response. Client calls put their ID into its response, heartbeats do not. */
  function NewPending(id: int, hasCallback: bool, heartbeat: bool): Pending {
    Pending(id, hasCallback, if heartbeat then EMPTY else EMPTY.(id := id), None, 0, 0)
  }

  /** `NewRequest` and `NewPendingResponse`: the next even ID and an object for it. */
  function Prepare(s: Shared, hasCallback: bool, heartbeat: bool): Shared {
    s.(sequence := s.sequence + 2, objects := s.objects + [NewPending(s.sequence + 2, hasCallback, heartbeat)])
  }

  /** `AddPendingResponse`. */
  function Store(s: Shared, ref: nat): Shared
    requires ref < |s.objects|
  {
    s.(table := s.table[s.objects[ref].seqId := ref])
  }

  function Delete(s: Shared, id: int): Shared {
    s.(table := s.table - {id})
  }

  function SetResponse(s: Shared, ref: nat, response: Response): Shared
    requires ref < |s.objects|
  {
    s.(objects := s.objects[ref := s.objects[ref].(response := response)])
  }

  /** The end of `Handle`: close Done, or call back. */
  function Wake(s: Shared, ref: nat): Shared
    requires ref < |s.objects|
  {
    var p := s.objects[ref];
    s.(objects := s.objects[ref := if p.hasCallback then p.(callbacks := p.callbacks + 1)
                                   else p.(err := p.response.error, closes := p.closes + 1)])
  }

  /** `Handle` without interference. */
  function Handled(s: Shared, response: Response): Shared
    requires forall id <- s.table :: s.table[id] < |s.objects|
  {
    if response.id in s.table then
      var ref := s.table[response.id];
      Wake(SetResponse(Delete(s, response.id), ref, response), ref)
    else s
  }

  /** The shared variables of the package, updated in place. */
  class Exchange {
    var sequence: int
    var table: map<int, nat>
    var objects: seq<Pending>

    ghost function View(): Shared
      reads this
    {
      Shared(sequence, table, objects)
    }

    constructor ()
      ensures View() == Shared(0, map[], [])
    {
      sequence, table, objects := 0, map[], [];
    }

    method SequenceID() returns (id: int)
      modifies this
      ensures View() == old(View()).(sequence := id) && id == old(sequence) + 2
    {
      sequence := sequence + 2;
      id := sequence;
    }

    method NewPendingResponse(hasCallback: bool, heartbeat: bool) returns (ref: nat)
      modifies this
      ensures View() == Prepare(old(View()), hasCallback, heartbeat) && ref == old(|objects|)
    {
      var id := SequenceID();
      ref := |objects|;
      objects := objects + [NewPending(id, hasCallback, heartbeat)];
    }

    method AddPendingResponse(ref: nat)
      requires ref < |objects|
      modifies this
      ensures View() == Store(old(View()), ref)
    {
      table := table[objects[ref].seqId := ref];
    }

    method RemovePendingResponse(id: int) returns (found: Option<nat>)
      modifies this
      ensures View() == Delete(old(View()), id)
      ensures found == Lookup(old(table), id)
    {
      found := None;
      if id in table {
        found := Some(table[id]);
        table := table - {id};
      }
      assert id !in old(table) ==> table - {id} == table;
    }

    method Handle(response: Response)
      requires forall id <- table :: table[id] < |objects|
      modifies this
      ensures View() == Handled(old(View()), response)
      ensures response.id !in old(table) ==> View() == old(View())
      ensures response.id in old(table) ==>
                var ref := old(table)[response.id];
                var was := old(objects)[ref];
                && sequence == old(sequence) && table == old(table) - {response.id}
                && |objects| == |old(objects)|
                && (forall i | 0 <= i < |objects| && i != ref :: objects[i] == old(objects)[i])
                && objects[ref].response == response && objects[ref].seqId == was.seqId
                && objects[ref].closes == was.closes + (if was.hasCallback then 0 else 1)
                && objects[ref].callbacks == was.callbacks + (if was.hasCallback then 1 else 0)
                && objects[ref].err == (if was.hasCallback then was.err else response.error)
    {
      var found := RemovePendingResponse(response.id);
      if found.None? {
        assert table == old(table);
        return;
      }
      var ref := found.value;
      objects := objects[ref := objects[ref].(response := response)];
      var p := objects[ref];
      if !p.hasCallback {
        objects := objects[ref := p.(err := p.response.error, closes := p.closes + 1)];
      } else {
        objects := objects[ref := p.(callbacks := p.callbacks + 1)];
      }
    }
  }

  /** How the transport may answer one request when nothing else runs. */
  datatype Transport = Errs(error: string) | Replies(response: Response) | Accepts

  datatype CallOutcome = Cancelled | NoConnection | TransportError | Completed

  /** The result object a caller passes in. */
  class ResultHolder {
    var value: RpcResult
  }

  /** What a completed call makes of its result, given the response its object then holds. */
  function Received(before: RpcResult, hasCallback: bool, response: Response): RpcResult {
    if hasCallback then before.(rest := Whole(response))
    else if response.result.Some? then response.result.value
    else before
  }

  class ExchangeClient {
    var connected: bool

    /** `doInit`: two attempts to connect, unless connected already. */
    method DoInit(first: bool, second: bool) returns (ok: bool)
      modifies this
      ensures ok <==> old(connected) || first || second
      ensures connected == ok
    {
      if !connected && !first && !second {
        return false;
      }
      connected := true;
      ok := true;
    }

    /**
      `RequestContext` and `AsyncRequestContext` for one call on its own. A call
      that never got going leaves no trace; one that errs, or is answered, leaves
      the table as it was; only a request still waiting for its answer stays. The
      error, or the answer, reaches the caller's result.
    */
    method RequestContext(x: Exchange, cancelled: Option<string>, first: bool, second: bool, hasCallback: bool,
                          transport: Transport, res: ResultHolder)
      returns (r: CallOutcome)
      requires forall id <- x.table :: id <= x.sequence && x.table[id] < |x.objects|
      modifies this, x, res
      ensures r == if cancelled.Some? then Cancelled
                   else if !(old(connected) || first || second) then NoConnection
                   else if transport.Errs? then TransportError else Completed
      ensures r.Cancelled? || r.NoConnection? ==> x.View() == old(x.View())
      ensures r.Cancelled? ==> res.value == old(res.value).(err := cancelled)
      ensures r.NoConnection? ==> res.value == old(res.value)
      ensures r.TransportError? ==>
                && x.View() == Prepare(old(x.View()), hasCallback, false)
                && res.value == old(res.value).(err := Some(transport.error))
      ensures r.Completed? ==>
                var id, ref := old(x.sequence) + 2, old(|x.objects|);
                var parked := Store(Prepare(old(x.View()), hasCallback, false), ref);
                && x.View() == (if transport.Accepts? then parked else Handled(parked, transport.response))
                && res.value == Received(old(res.value), hasCallback, x.objects[ref].response)
                && (transport.Replies? && transport.response.id == id ==>
                      && x.table == old(x.table) && |x.objects| == ref + 1
                      && x.objects[..ref] == old(x.objects)
                      && x.objects[ref].response == transport.response
                      && x.objects[ref].closes == (if hasCallback then 0 else 1)
                      && x.objects[ref].callbacks == (if hasCallback then 1 else 0)
                      && (!hasCallback ==> x.objects[ref].err == transport.response.error))
      // what an answer with the call's own ID brings its caller
      ensures r.Completed? && transport.Replies? && transport.response.id == old(x.sequence) + 2 ==>
                && (!hasCallback && transport.response.result.Some? ==>
                      res.value == transport.response.result.value)
                && (!hasCallback && transport.response.result.None? ==> res.value == old(res.value))
                && (hasCallback ==> res.value == old(res.value).(rest := Whole(transport.response)))
      // without an answer of its own a call without callback has no result to copy
      ensures r.Completed? && !hasCallback && (transport.Replies? ==> transport.response.id != old(x.sequence) + 2) ==>
                res.value == old(res.value)
    {
      if cancelled.Some? {
        res.value := res.value.(err := cancelled);
        return Cancelled;
      }
      var ok := DoInit(first, second);
      if !ok {
        return NoConnection;
      }
      var ref := x.NewPendingResponse(hasCallback, false);
      x.AddPendingResponse(ref);
      if transport.Errs? {
        var _ := x.RemovePendingResponse(x.sequence);
        assert x.table == old(x.table);
        res.value := res.value.(err := Some(transport.error));
        return TransportError;
      }
      if transport.Replies? {
        x.Handle(transport.response);
        assert transport.response.id == x.sequence ==> x.table == old(x.table);
      }
      var response := x.objects[ref].response;
      if hasCallback {
        res.value := res.value.(rest := Whole(response));
      } else if response.result.Some? {
        res.value := response.result.value;
      }
      r := Completed;
    }

    /** `SendContext`: a one-way request takes an ID and an object but never enters the table. */
    method SendContext(x: Exchange, cancelled: bool, first: bool, second: bool, transport: Transport)
      returns (r: CallOutcome)
      modifies this, x
      ensures r == if cancelled then Cancelled
                   else if !(old(connected) || first || second) then NoConnection
                   else if transport.Errs? then TransportError else Completed
      ensures x.View() ==
              if r.Cancelled? || r.NoConnection? then old(x.View()) else Prepare(old(x.View()), false, false)
    {
      if cancelled {
        return Cancelled;
      }
      var ok := DoInit(first, second);
      if !ok {
        return NoConnection;
      }
      var _ := x.NewPendingResponse(false, false);
      r := if transport.Errs? then TransportError else Completed;
    }
  }

  // -------------------------------------------------------------- the threads

  /** Where a client call stands; call `c` owns object `c`. */
  datatype CallPc = Prepared | Sent | Loading | Deleting | Failed | Returned

  /** A client call, or a heartbeat, which is a two-way call of the session. */
  datatype Call = Call(id: int, twoWay: bool, heartbeat: bool, pc: CallPc)

  /** Where a `Handle` call stands; `ref` is the object its load found. */
  datatype HandlePc = Arrived | Loaded(ref: nat) | Unlinked(ref: nat) | Stored(ref: nat) | Done(ref: nat) | Missed

  datatype Handler = Handler(response: Response, pc: HandlePc)
  {
    predicate Active() { !pc.Done? && !pc.Missed? }

    /** Its load found an object, `pc.ref`. */
    predicate Hit() { pc.Loaded? || pc.Unlinked? || pc.Stored? || pc.Done? }
  }

  /**
    All threads together, with three pieces of history: the IDs deleted from the
    table, the IDs for which two `Handle` calls were ever under way at once, and
    the IDs that one `Handle` call loaded while another had loaded and not deleted.
  */
  datatype State = State(
    shared: Shared, calls: seq<Call>, handlers: seq<Handler>,
    deleted: set<int>, overlapped: set<int>, raced: set<int>)

  const INIT := State(Shared(0, map[], []), [], [], {}, {}, {})

  datatype Action =
    | Begin(twoWay: bool, hasCallback: bool)        // a call takes its ID
    | Heartbeat                                     // a heartbeat takes its ID
    | Add(c: nat)                                   // ... and enters the table
    | Fail(c: nat)                                  // its transport gives up, or it times out; it starts to remove
    | Load(c: nat) | Remove(c: nat)                 // the two halves of RemovePendingResponse
    | Return(c: nat)                                // its transport succeeds
    | Arrive(response: Response)                    // a response comes in
    | HandleLoad(h: nat) | HandleDelete(h: nat) | HandleStore(h: nat) | HandleWake(h: nat)

  predicate Enabled(s: State, a: Action) {
    match a
    case Begin(_, _) => true
    case Heartbeat => true
    case Add(c) => c < |s.calls| && c < |s.shared.objects| && s.calls[c].twoWay && s.calls[c].pc == Prepared
    case Fail(c) => c < |s.calls| && s.calls[c].twoWay && (s.calls[c].pc == Sent || s.calls[c].pc == Failed)
    case Load(c) => c < |s.calls| && s.calls[c].pc == Loading
    case Remove(c) => c < |s.calls| && s.calls[c].pc == Deleting
    case Return(c) => c < |s.calls| && s.calls[c].pc == if s.calls[c].twoWay then Sent else Prepared
    case Arrive(_) => true
    case HandleLoad(h) => h < |s.handlers| && s.handlers[h].pc == Arrived
    case HandleDelete(h) => h < |s.handlers| && s.handlers[h].pc.Loaded?
    case HandleStore(h) => h < |s.handlers| && s.handlers[h].pc.Unlinked? && s.handlers[h].pc.ref < |s.shared.objects|
    case HandleWake(h) => h < |s.handlers| && s.handlers[h].pc.Stored? && s.handlers[h].pc.ref < |s.shared.objects|
  }

  function Goto(s: State, c: nat, pc: CallPc): State
    requires c < |s.calls|
  {
    s.(calls := s.calls[c := s.calls[c].(pc := pc)])
  }

  function HandlerTo(s: State, h: nat, pc: HandlePc): State
    requires h < |s.handlers|
  {
    s.(handlers := s.handlers[h := s.handlers[h].(pc := pc)])
  }

  /** Another `Handle` call for this ID is under way. */
  predicate Busy(s: State, id: int) {
    exists h | 0 <= h < |s.handlers| :: s.handlers[h].Active() && s.handlers[h].response.id == id
  }

  /** Some `Handle` call for this ID has loaded the entry and not yet deleted it. */
  predicate HeldLoaded(s: State, id: int) {
    exists h | 0 <= h < |s.handlers| :: s.handlers[h].pc.Loaded? && s.handlers[h].response.id == id
  }

  function Do(s: State, a: Action): State
    requires Enabled(s, a)
  {
    match a
    case Begin(twoWay, hasCallback) =>
      s.(shared := Prepare(s.shared, hasCallback, false),
         calls := s.calls + [Call(s.shared.sequence + 2, twoWay, false, Prepared)])
    case Heartbeat =>
      s.(shared := Prepare(s.shared, false, true),
         calls := s.calls + [Call(s.shared.sequence + 2, true, true, Prepared)])
    case Add(c) => Goto(s.(shared := Store(s.shared, c)), c, Sent)
    case Fail(c) => Goto(s, c, Loading)
    case Load(c) => Goto(s, c, if s.calls[c].id in s.shared.table then Deleting else Failed)
    case Remove(c) =>
      Goto(s.(shared := Delete(s.shared, s.calls[c].id), deleted := s.deleted + {s.calls[c].id}), c, Failed)
    case Return(c) => Goto(s, c, Returned)
    case Arrive(response) =>
      s.(handlers := s.handlers + [Handler(response, Arrived)],
         overlapped := if Busy(s, response.id) then s.overlapped + {response.id} else s.overlapped)
    case HandleLoad(h) =>
      var id := s.handlers[h].response.id;
      if id !in s.shared.table then HandlerTo(s, h, Missed)
      else
        HandlerTo(s.(raced := if HeldLoaded(s, id) then s.raced + {id} else s.raced), h, Loaded(s.shared.table[id]))
    case HandleDelete(h) =>
      var id := s.handlers[h].response.id;
      HandlerTo(s.(shared := Delete(s.shared, id), deleted := s.deleted + {id}), h, Unlinked(s.handlers[h].pc.ref))
    case HandleStore(h) =>
      var ref := s.handlers[h].pc.ref;
      HandlerTo(s.(shared := SetResponse(s.shared, ref, s.handlers[h].response)), h, Stored(ref))
    case HandleWake(h) =>
      var ref := s.handlers[h].pc.ref;
      HandlerTo(s.(shared := Wake(s.shared, ref)), h, Done(ref))
  }

  /** A run is a sequence of actions, each enabled where it is taken. */
  predicate IsRun(actions: seq<Action>)
    decreases |actions|, 0
  {
    actions == [] || (IsRun(actions[..|actions| - 1]) &&
                      Enabled(After(actions[..|actions| - 1]), actions[|actions| - 1]))
  }

  function After(actions: seq<Action>): State
    requires IsRun(actions)
    decreases |actions|, 1
  {
    if actions == [] then INIT else Do(After(actions[..|actions| - 1]), actions[|actions| - 1])
  }

  // ------------------------------------------------------------ the invariant

  /** The calls have the even numbers from two on, in the order in which they began. */
  ghost predicate IdsGrow(s: State) {
    && s.shared.sequence == 2 * |s.calls|
    && forall c | 0 <= c < |s.calls| :: s.calls[c].id == 2 * (c + 1)
  }

  /** Each call owns the object with its index. */
  ghost predicate ObjectsMatch(s: State) {
    && |s.shared.objects| == |s.calls|
    && forall c | 0 <= c < |s.calls| :: s.shared.objects[c].seqId == s.calls[c].id
  }

  /** A handler has stored its response in object `c`. */
  predicate StoredIn(h: Handler, c: nat) {
    h.pc == Stored(c) || h.pc == Done(c)
  }

  /** An object holds its own ID, except that a heartbeat's is empty until a handler stores. */
  ghost predicate OwnResponse(s: State, c: nat)
    requires c < |s.calls| && c < |s.shared.objects|
  {
    var p := s.shared.objects[c].response;
    || p.id == s.calls[c].id
    || (s.calls[c].heartbeat && p == EMPTY && forall h | 0 <= h < |s.handlers| :: !StoredIn(s.handlers[h], c))
  }

  ghost predicate OwnResponses(s: State)
    requires ObjectsMatch(s)
  {
    forall c: nat | c < |s.calls| :: OwnResponse(s, c)
  }

  /** A call is in the table exactly while it is added and not deleted; a failed one has been deleted. */
  ghost predicate CallTracked(s: State, c: Call) {
    && (c.id in s.shared.table <==> c.twoWay && c.pc != Prepared && c.id !in s.deleted)
    && (!c.twoWay ==> c.pc in {Prepared, Returned})
    && (c.id in s.deleted ==> c.twoWay && c.pc != Prepared)
    && (c.pc == Failed ==> c.id in s.deleted)
  }

  /** Table entries lead to the call with their ID; no ID is deleted before it is given out. */
  ghost predicate TableRefs(s: State) {
    && (forall id <- s.deleted :: id <= s.shared.sequence)
    && (forall id <- s.shared.table :: s.shared.table[id] < |s.calls| && s.calls[s.shared.table[id]].id == id)
  }

  /** The table holds exactly the two-way requests added and not yet deleted. */
  ghost predicate TableExact(s: State) {
    TableRefs(s) && forall c | 0 <= c < |s.calls| :: CallTracked(s, s.calls[c])
  }

  /** A handler that hit an object carries that object's ID, and past its delete the ID is gone. */
  ghost predicate HitMatches(s: State, h: Handler) {
    h.Hit() ==>
      var c := h.pc.ref;
      && c < |s.calls| && s.calls[c].id == h.response.id && s.calls[c].twoWay && s.calls[c].pc != Prepared
      && (!h.pc.Loaded? ==> s.calls[c].id in s.deleted)
  }

  ghost predicate HitsMatch(s: State) {
    forall h | 0 <= h < |s.handlers| :: HitMatches(s, s.handlers[h])
  }

  /** The two handlers are under way for one ID, or hit one object. */
  predicate Collide(g: Handler, h: Handler) {
    && g.response.id == h.response.id
    && ((g.Active() && h.Active()) || (g.Hit() && h.Hit()))
  }

  /** Two handlers collide only where an overlap is on record. */
  ghost predicate OverlapsRecorded(s: State) {
    forall g, h | 0 <= g < |s.handlers| && 0 <= h < |s.handlers| && g != h && Collide(s.handlers[g], s.handlers[h]) ::
      s.handlers[g].response.id in s.overlapped
  }

  /** The handlers that have finished waking object `c`. */
  ghost function Finished(s: State, c: nat): set<nat> {
    set h: nat | h < |s.handlers| && s.handlers[h].pc == Done(c)
  }

  /** Every wake-up of an object is the work of one finished handler. */
  ghost predicate WakesMatch(s: State, c: nat)
    requires c < |s.shared.objects|
  {
    var p := s.shared.objects[c];
    p.Wakes() == |Finished(s, c)| && (if p.hasCallback then p.closes == 0 else p.callbacks == 0)
  }

  ghost predicate WakesCounted(s: State) {
    forall c: nat | c < |s.shared.objects| :: WakesMatch(s, c)
  }

  /** Without a race, what a handler stored is what the caller finds. */
  ghost predicate HitDelivered(s: State, h: Handler) {
    h.Hit() && h.pc.ref < |s.shared.objects| && h.response.id !in s.raced ==>
      var p := s.shared.objects[h.pc.ref];
      && (h.pc.Stored? || h.pc.Done? ==> p.response == h.response)
      && (h.pc.Done? && !p.hasCallback ==> p.err == h.response.error)
  }

  ghost predicate Delivered(s: State) {
    forall h | 0 <= h < |s.handlers| :: HitDelivered(s, s.handlers[h])
  }

  predicate HitBoth(s: State, g: nat, h: nat, id: int)
    requires g < |s.handlers| && h < |s.handlers|
  {
    && s.handlers[g].Hit() && s.handlers[h].Hit()
    && s.handlers[g].response.id == s.handlers[h].response.id == id
  }

  /** Two handlers hit one entry. */
  ghost predicate TwoHits(s: State, id: int) {
    exists g, h | 0 <= g < |s.handlers| && 0 <= h < |s.handlers| && g != h :: HitBoth(s, g, h, id)
  }

  /** An entry is hit twice exactly where a race is on record. */
  ghost predicate RacesRecorded(s: State) {
    forall id: int :: id in s.raced <==> TwoHits(s, id)
  }

  ghost predicate Inv(s: State) {
    && IdsGrow(s) && ObjectsMatch(s) && OwnResponses(s) && TableExact(s) && HitsMatch(s)
    && OverlapsRecorded(s) && RacesRecorded(s) && WakesCounted(s) && Delivered(s)
  }

  lemma KeepsIds(s: State, a: Action)
    requires IdsGrow(s) && Enabled(s, a)
    ensures IdsGrow(Do(s, a))
  {
  }

  lemma KeepsObjects(s: State, a: Action)
    requires ObjectsMatch(s) && HitsMatch(s) && Enabled(s, a)
    ensures ObjectsMatch(Do(s, a))
  {
    if a.HandleStore? || a.HandleWake? {
      assert HitMatches(s, s.handlers[a.h]);
    }
  }

  lemma KeepsResponses(s: State, a: Action)
    requires ObjectsMatch(s) && OwnResponses(s) && HitsMatch(s) && Enabled(s, a) && ObjectsMatch(Do(s, a))
    ensures OwnResponses(Do(s, a))
  {
    var t := Do(s, a);
    forall c: nat | c < |t.calls|
      ensures OwnResponse(t, c)
    {
      if c < |s.calls| {
        assert OwnResponse(s, c);
        if a.HandleStore? || a.HandleWake? {
          assert HitMatches(s, s.handlers[a.h]);
        }
      } else {
        assert forall h | 0 <= h < |s.handlers| :: HitMatches(s, s.handlers[h]);
      }
    }
  }

  lemma KeepsRefs(s: State, a: Action)
    requires IdsGrow(s) && ObjectsMatch(s) && TableRefs(s) && HitsMatch(s)
    requires Enabled(s, a)
    ensures TableRefs(Do(s, a))
  {
    if a.HandleDelete? {
      assert HitMatches(s, s.handlers[a.h]);
    }
  }

  lemma KeepsTable(s: State, a: Action)
    requires IdsGrow(s) && ObjectsMatch(s) && TableExact(s) && HitsMatch(s)
    requires Enabled(s, a)
    ensures TableExact(Do(s, a))
  {
    var t := Do(s, a);
    KeepsRefs(s, a);
    if a.HandleDelete? {
      assert HitMatches(s, s.handlers[a.h]);
    }
    forall c | 0 <= c < |t.calls|
      ensures CallTracked(t, t.calls[c])
    {
      if c < |s.calls| {
        assert CallTracked(s, s.calls[c]);
      } else {
        assert s.shared.sequence + 2 !in s.shared.table;
      }
    }
  }

  lemma KeepsHits(s: State, a: Action)
    requires TableExact(s) && HitsMatch(s)
    requires Enabled(s, a)
    ensures HitsMatch(Do(s, a))
  {
    var t := Do(s, a);
    forall h | 0 <= h < |t.handlers|
      ensures HitMatches(t, t.handlers[h])
    {
      if h < |s.handlers| {
        assert HitMatches(s, s.handlers[h]);
        if a.HandleLoad? && a.h == h && t.handlers[h].Hit() {
          assert CallTracked(s, s.calls[t.handlers[h].pc.ref]);
        }
      }
    }
  }

  lemma KeepsOverlaps(s: State, a: Action)
    requires TableExact(s) && HitsMatch(s) && OverlapsRecorded(s)
    requires Enabled(s, a)
    ensures OverlapsRecorded(Do(s, a))
  {
    var t := Do(s, a);
    forall g, h | 0 <= g < |t.handlers| && 0 <= h < |t.handlers| && g != h && Collide(t.handlers[g], t.handlers[h])
      ensures t.handlers[g].response.id in t.overlapped
    {
      if g < |s.handlers| && h < |s.handlers| {
        assert HitMatches(s, s.handlers[g]) && HitMatches(s, s.handlers[h]);
        if a.HandleLoad? && t.handlers[a.h].Hit() {
          assert CallTracked(s, s.calls[t.handlers[a.h].pc.ref]);
        }
        assert Collide(s.handlers[g], s.handlers[h]);
      }
    }
  }

  lemma KeepsRaces(s: State, a: Action)
    requires TableExact(s) && HitsMatch(s) && RacesRecorded(s)
    requires Enabled(s, a)
    ensures RacesRecorded(Do(s, a))
  {
    forall id: int
      ensures id in Do(s, a).raced <==> TwoHits(Do(s, a), id)
    {
      assert id in s.raced <==> TwoHits(s, id);
      if a.HandleLoad? && s.handlers[a.h].response.id == id && id in s.shared.table {
        LoadHitsAgain(s, a.h, id);
      } else {
        KeepsTwoHits(s, a, id);
      }
    }
  }

  /** A load finds an entry that was hit before exactly if the earlier hit has not yet deleted it. */
  lemma LoadHitsAgain(s: State, n: nat, id: int)
    requires TableExact(s) && HitsMatch(s) && Enabled(s, HandleLoad(n))
    requires s.handlers[n].response.id == id && id in s.shared.table
    ensures TwoHits(Do(s, HandleLoad(n)), id) <==> TwoHits(s, id) || HeldLoaded(s, id)
  {
    var t := Do(s, HandleLoad(n));
    forall g | 0 <= g < |s.handlers| && s.handlers[g].Hit() && s.handlers[g].response.id == id
      ensures s.handlers[g].pc.Loaded?
    {
      assert HitMatches(s, s.handlers[g]);
      assert CallTracked(s, s.calls[s.handlers[g].pc.ref]);
    }
    if HeldLoaded(s, id) {
      var g :| 0 <= g < |s.handlers| && s.handlers[g].pc.Loaded? && s.handlers[g].response.id == id;
      assert HitBoth(t, g, n, id) && g != n;
    }
    if TwoHits(t, id) {
      var g, h :| 0 <= g < |t.handlers| && 0 <= h < |t.handlers| && g != h && HitBoth(t, g, h, id);
      var other := if g == n then h else g;
      assert t.handlers[other] == s.handlers[other];
    }
    if TwoHits(s, id) {
      var g, h :| 0 <= g < |s.handlers| && 0 <= h < |s.handlers| && g != h && HitBoth(s, g, h, id);
      assert HitBoth(t, g, h, id);
    }
  }

  /** Only a load that finds its entry changes who hit what. */
  lemma KeepsTwoHits(s: State, a: Action, id: int)
    requires Enabled(s, a)
    requires a.HandleLoad? ==> id != s.handlers[a.h].response.id || id !in s.shared.table
    ensures TwoHits(Do(s, a), id) <==> TwoHits(s, id)
  {
    var t := Do(s, a);
    if TwoHits(s, id) {
      var g, h :| 0 <= g < |s.handlers| && 0 <= h < |s.handlers| && g != h && HitBoth(s, g, h, id);
      assert HitBoth(t, g, h, id);
    }
    if TwoHits(t, id) {
      var g, h :| 0 <= g < |t.handlers| && 0 <= h < |t.handlers| && g != h && HitBoth(t, g, h, id);
      assert HitBoth(s, g, h, id);
    }
  }

  lemma KeepsDelivered(s: State, a: Action)
    requires ObjectsMatch(s) && HitsMatch(s) && RacesRecorded(s) && Delivered(s)
    requires Enabled(s, a)
    ensures Delivered(Do(s, a))
  {
    var t := Do(s, a);
    forall h | 0 <= h < |t.handlers|
      ensures HitDelivered(t, t.handlers[h])
    {
      if h < |s.handlers| {
        assert HitMatches(s, s.handlers[h]) && HitDelivered(s, s.handlers[h]);
        if (a.HandleStore? || a.HandleWake?) && a.h != h && s.handlers[h].Hit() {
          assert HitMatches(s, s.handlers[a.h]);
          if s.handlers[h].pc.ref == s.handlers[a.h].pc.ref {
            assert HitBoth(s, h, a.h, s.handlers[h].response.id);
            assert TwoHits(s, s.handlers[h].response.id);
          }
        }
      }
    }
  }

  lemma KeepsWakes(s: State, a: Action)
    requires ObjectsMatch(s) && HitsMatch(s) && WakesCounted(s)
    requires Enabled(s, a)
    ensures WakesCounted(Do(s, a))
  {
    var t := Do(s, a);
    forall c: nat | c < |t.shared.objects|
      ensures WakesMatch(t, c)
    {
      if c < |s.shared.objects| {
        KeepsWakesOf(s, a, c);
      } else {
        assert forall h: nat | h < |s.handlers| :: HitMatches(s, s.handlers[h]);
        assert Finished(t, c) == {};
      }
    }
  }

  lemma KeepsWakesOf(s: State, a: Action, c: nat)
    requires ObjectsMatch(s) && HitsMatch(s) && Enabled(s, a)
    requires c < |s.shared.objects| && WakesMatch(s, c)
    ensures WakesMatch(Do(s, a), c)
  {
    var t := Do(s, a);
    if a.HandleWake? && s.handlers[a.h].pc.ref == c {
      assert Finished(t, c) == Finished(s, c) + {a.h};
    } else {
      assert Finished(t, c) == Finished(s, c);
    }
  }

  lemma {:induction false} RunsKeepInv(actions: seq<Action>)
    requires IsRun(actions)
    ensures Inv(After(actions))
    decreases |actions|
  {
    if actions == [] {
      assert forall c: nat :: Finished(INIT, c) == {};
    } else {
      var before, a := actions[..|actions| - 1], actions[|actions| - 1];
      RunsKeepInv(before);
      var s := After(before);
      KeepsIds(s, a);
      KeepsObjects(s, a);
      KeepsResponses(s, a);
      KeepsTable(s, a);
      KeepsHits(s, a);
      KeepsOverlaps(s, a);
      KeepsRaces(s, a);
      KeepsWakes(s, a);
      KeepsDelivered(s, a);
    }
  }

  // ------------------------------------------------------------- the theorems

  /**
    In every run the requests and heartbeats have the even IDs from two to the
    sequence, in the order in which they began; so IDs are even and pairwise distinct.
  */
  lemma RequestIds(actions: seq<Action>, c: nat, d: nat)
    requires IsRun(actions) && c < |After(actions).calls| && d < |After(actions).calls|
    ensures var s := After(actions);
            && s.shared.sequence == 2 * |s.calls| && s.calls[c].id == 2 * (c + 1)
            && s.calls[c].id % 2 == 0 && 0 < s.calls[c].id <= s.shared.sequence
            && (c != d ==> s.calls[c].id != s.calls[d].id)
  {
    RunsKeepInv(actions);
  }

  /**
    The table of every reachable state: its keys are the two-way requests added
    and not deleted, so a call whose failure path is over has left nothing behind
    and one-way sends never enter.
  */
  lemma TableContents(actions: seq<Action>)
    requires IsRun(actions)
    ensures var s := After(actions);
            && s.shared.table.Keys ==
               (set c | 0 <= c < |s.calls| && s.calls[c].twoWay && s.calls[c].pc != Prepared &&
                        s.calls[c].id !in s.deleted :: s.calls[c].id)
            && (forall c | 0 <= c < |s.calls| && (s.calls[c].pc == Failed || !s.calls[c].twoWay) ::
                  s.calls[c].id !in s.shared.table)
  {
    RunsKeepInv(actions);
    var s := After(actions);
    forall id | id in s.shared.table
      ensures exists c | 0 <= c < |s.calls| ::
                s.calls[c].twoWay && s.calls[c].pc != Prepared && s.calls[c].id !in s.deleted && s.calls[c].id == id
    {
      assert CallTracked(s, s.calls[s.shared.table[id]]);
    }
    assert forall c | 0 <= c < |s.calls| :: CallTracked(s, s.calls[c]);
  }

  /** The handlers that hit an entry and are through are those that woke its object. */
  lemma HitsOfCall(s: State, c: nat, h: nat)
    requires Inv(s) && c < |s.calls| && h < |s.handlers|
    ensures h in Finished(s, c) <==>
            s.handlers[h].Hit() && s.handlers[h].response.id == s.calls[c].id && !s.handlers[h].Active()
  {
    assert HitMatches(s, s.handlers[h]);
  }

  /**
    Exactly when an entry is woken more than once, in every run: only if two `Handle`
    calls raced for its ID, one loading before the other deleted; and if they did, then
    as soon as no `Handle` call for the ID is under way.
  */
  lemma WokenTwiceIffRaced(actions: seq<Action>, c: nat)
    requires IsRun(actions) && c < |After(actions).calls|
    ensures c < |After(actions).shared.objects|
    ensures var s := After(actions);
            var wakes, id := s.shared.objects[c].Wakes(), s.calls[c].id;
            && (wakes > 1 ==> id in s.raced)
            && (!Busy(s, id) ==> (wakes > 1 <==> id in s.raced))
  {
    RunsKeepInv(actions);
    var s := After(actions);
    var id, woke := s.calls[c].id, Finished(s, c);
    assert WakesMatch(s, c);
    if |woke| > 1 {
      var g, h := TwoOf(woke);
      HitsOfCall(s, c, g);
      HitsOfCall(s, c, h);
      assert HitBoth(s, g, h, id);
      assert TwoHits(s, id);
    }
    if id in s.raced && !Busy(s, id) {
      assert TwoHits(s, id);
      var g, h :| 0 <= g < |s.handlers| && 0 <= h < |s.handlers| && g != h && HitBoth(s, g, h, id);
      HitsOfCall(s, c, g);
      HitsOfCall(s, c, h);
      HasTwo(woke, g, h);
    }
  }

  lemma TwoOf(a: set<nat>) returns (x: nat, y: nat)
    requires |a| > 1
    ensures x in a && y in a && x != y
  {
    x :| x in a;
    assert |a - {x}| == |a| - 1;
    y :| y in a - {x};
  }

  lemma HasTwo(a: set<nat>, x: nat, y: nat)
    requires x in a && y in a && x != y
    ensures |a| > 1
  {
    assert a == (a - {x, y}) + {x, y};
    assert |{x, y}| == 2;
  }

  /**
    A request whose ID was never raced for is woken at most once, its Done channel
    is closed at most once, and it finds the response that woke it.
  */
  lemma WokenAtMostOnce(actions: seq<Action>, c: nat)
    requires IsRun(actions) && c < |After(actions).calls|
    requires After(actions).calls[c].id !in After(actions).raced
    ensures c < |After(actions).shared.objects|
    ensures After(actions).shared.objects[c].Wakes() <= 1
    ensures forall h | h in Finished(After(actions), c) ::
              After(actions).shared.objects[c].response == After(actions).handlers[h].response
  {
    RunsKeepInv(actions);
    WokenTwiceIffRaced(actions, c);
    var s := After(actions);
    forall h: nat | h in Finished(s, c)
      ensures HitMatches(s, s.handlers[h]) && HitDelivered(s, s.handlers[h])
    {
    }
  }

  /** Only overlapping `Handle` calls race. */
  lemma RacesOverlap(actions: seq<Action>)
    requires IsRun(actions)
    ensures After(actions).raced <= After(actions).overlapped
  {
    RunsKeepInv(actions);
    var s := After(actions);
    forall id | id in s.raced
      ensures id in s.overlapped
    {
      assert TwoHits(s, id);
      var g, h :| 0 <= g < |s.handlers| && 0 <= h < |s.handlers| && g != h && HitBoth(s, g, h, id);
      assert Collide(s.handlers[g], s.handlers[h]);
    }
  }

  /** So without overlapping `Handle` calls for its ID a request is woken at most once. */
  lemma WokenOnceWithoutOverlap(actions: seq<Action>, c: nat)
    requires IsRun(actions) && c < |After(actions).calls|
    requires After(actions).calls[c].id !in After(actions).overlapped
    ensures c < |After(actions).shared.objects| && After(actions).shared.objects[c].Wakes() <= 1
  {
    RacesOverlap(actions);
    WokenAtMostOnce(actions, c);
  }

  /**
    A response is only ever stored in the entry that carries its ID. Until then a
    heartbeat's entry is empty and the entry of a call already has its ID.
  */
  lemma StoredUnderOwnId(actions: seq<Action>, c: nat)
    requires IsRun(actions) && c < |After(actions).calls|
    ensures c < |After(actions).shared.objects|
    ensures var s := After(actions);
            var p := s.shared.objects[c].response;
            && (p.id == s.calls[c].id || (s.calls[c].heartbeat && p == EMPTY))
            && (forall h | 0 <= h < |s.handlers| && StoredIn(s.handlers[h], c) ::
                  s.handlers[h].response.id == s.calls[c].id && p.id == s.calls[c].id)
  {
    RunsKeepInv(actions);
    var s := After(actions);
    assert OwnResponse(s, c);
    assert forall h | 0 <= h < |s.handlers| :: HitMatches(s, s.handlers[h]);
  }

  /** Wake-ups are conserved: each one is a `Handle` call that found the entry and finished. */
  lemma WakesAccounted(actions: seq<Action>, c: nat)
    requires IsRun(actions) && c < |After(actions).calls|
    ensures c < |After(actions).shared.objects|
    ensures var p := After(actions).shared.objects[c];
            if p.hasCallback then p.closes == 0 && p.callbacks == |Finished(After(actions), c)|
            else p.callbacks == 0 && p.closes == |Finished(After(actions), c)|
  {
    RunsKeepInv(actions);
    assert WakesMatch(After(actions), c);
  }

  // --------------------------------------------------- where the bound is sharp

  /** Some run leads to `s`. */
  ghost predicate Reachable(s: State) {
    exists actions: seq<Action> :: IsRun(actions) && After(actions) == s
  }

  lemma Extend(s: State, a: Action)
    requires Reachable(s) && Enabled(s, a)
    ensures Reachable(Do(s, a))
  {
    var actions :| IsRun(actions) && After(actions) == s;
    assert (actions + [a])[..|actions|] == actions;
    assert IsRun(actions + [a]) && After(actions + [a]) == Do(s, a);
  }

  /** A call that waits can fail, and then undoes what it added and nothing else. */
  lemma FailureTakesBack(s: State, c: nat) returns (t: State)
    requires Reachable(s) && c < |s.calls| && s.calls[c].pc == Sent
    ensures Reachable(t) && c < |t.calls| && t.calls[c].pc == Failed
    ensures t.shared == s.shared.(table := s.shared.table - {s.calls[c].id})
  {
    var actions :| IsRun(actions) && After(actions) == s;
    RunsKeepInv(actions);
    assert CallTracked(s, s.calls[c]);
    Extend(s, Fail(c));
    t := Do(s, Fail(c));
    Extend(t, Load(c));
    t := Do(t, Load(c));
    if t.calls[c].pc == Deleting {
      Extend(t, Remove(c));
      t := Do(t, Remove(c));
    } else {
      assert s.shared.table - {s.calls[c].id} == s.shared.table;
    }
  }

  /** Two handlers that both found an entry can both finish, and close its channel twice. */
  lemma BothClose(s: State, g: nat, h: nat, c: nat) returns (t: State)
    requires Reachable(s) && g < |s.handlers| && h < |s.handlers| && g != h && c < |s.shared.objects|
    requires s.handlers[g].pc == Loaded(c) && s.handlers[h].pc == Loaded(c) && !s.shared.objects[c].hasCallback
    ensures Reachable(t) && c < |t.shared.objects|
    ensures t.shared.objects[c].closes == s.shared.objects[c].closes + 2
  {
    t := FinishHandler(s, g, c);
    t := FinishHandler(t, h, c);
  }

  /** A handler that found an entry runs to its end. */
  lemma FinishHandler(s: State, h: nat, c: nat) returns (t: State)
    requires Reachable(s) && h < |s.handlers| && s.handlers[h].pc == Loaded(c)
    requires c < |s.shared.objects| && !s.shared.objects[c].hasCallback
    ensures Reachable(t) && t.handlers == s.handlers[h := s.handlers[h].(pc := Done(c))]
    ensures |t.shared.objects| == |s.shared.objects| && !t.shared.objects[c].hasCallback
    ensures t.shared.objects[c].closes == s.shared.objects[c].closes + 1
  {
    Extend(s, HandleDelete(h));
    t := Do(s, HandleDelete(h));
    Extend(t, HandleStore(h));
    t := Do(t, HandleStore(h));
    Extend(t, HandleWake(h));
    t := Do(t, HandleWake(h));
  }

  /** Two copies of a response to a waiting request come in, and both load before either deletes. */
  lemma ArriveAndLoadTwice(s: State, r: Response) returns (t: State)
    requires Reachable(s) && r.id in s.shared.table
    ensures Reachable(t) && t.shared == s.shared && |t.handlers| == |s.handlers| + 2
    ensures t.handlers[|s.handlers|].pc == t.handlers[|s.handlers| + 1].pc == Loaded(s.shared.table[r.id])
  {
    var n := |s.handlers|;
    Extend(s, Arrive(r));
    t := Do(s, Arrive(r));
    Extend(t, Arrive(r));
    t := Do(t, Arrive(r));
    Extend(t, HandleLoad(n));
    t := Do(t, HandleLoad(n));
    Extend(t, HandleLoad(n + 1));
    t := Do(t, HandleLoad(n + 1));
  }

  /**
    The proviso is needed by every request: wherever one without a callback waits,
    two overlapping `Handle` calls can close its Done channel twice, which panics in Go.
  */
  lemma OverlapCanCloseTwice(s: State, id: int) returns (t: State)
    requires Reachable(s) && id in s.shared.table
    requires s.shared.table[id] < |s.shared.objects| ==> !s.shared.objects[s.shared.table[id]].hasCallback
    ensures Reachable(t) && s.shared.table[id] < |t.shared.objects|
    ensures t.shared.objects[s.shared.table[id]].closes > 1
  {
    var actions :| IsRun(actions) && After(actions) == s;
    RunsKeepInv(actions);
    var c := s.shared.table[id];
    t := ArriveAndLoadTwice(s, Response(id, None, None));
    t := BothClose(t, |s.handlers|, |s.handlers| + 1, c);
  }

  /** Such a request is reached in two steps. */
  lemma SomeRequestWaits() returns (s: State)
    ensures Reachable(s) && s.shared.table == map[2 := 0] && |s.shared.objects| == 1 && !s.shared.objects[0].hasCallback
  {
    s := INIT;
    assert IsRun([]) && After([]) == s;
    Extend(s, Begin(true, false));
    s := Do(s, Begin(true, false));
    Extend(s, Add(0));
    s := Do(s, Add(0));
  }

  /** Taken without interference, the four steps of a handler are `Handle`. */
  lemma HandlerStepsAreHandle(s: State, h: nat)
    requires Inv(s) && h < |s.handlers| && s.handlers[h].pc == Arrived
    ensures var s1 := Do(s, HandleLoad(h));
            if s1.handlers[h].pc.Missed? then s1.shared == Handled(s.shared, s.handlers[h].response)
            else
              && Enabled(s1, HandleDelete(h))
              && var s2 := Do(s1, HandleDelete(h));
              && Enabled(s2, HandleStore(h))
              && var s3 := Do(s2, HandleStore(h));
              && Enabled(s3, HandleWake(h))
              && Do(s3, HandleWake(h)).shared == Handled(s.shared, s.handlers[h].response)
  {
  }
}
