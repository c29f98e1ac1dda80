/**
  Idempotency-Key replay over any sequential run of requests: a recorded response stands in for the
  operation from then on, and a key reused with other content is turned away.
 */
module Idempotency {
  import opened Wrappers

  /** A stored response is filed under the key and the route. */
  datatype Slot = Slot(key: string, route: string)

  datatype StoredResponse = StoredResponse(requestHash: string, status: int, json: string, createdAt: int)

  /** One execution of an operation that succeeded. */
  datatype Performed = Performed(key: Option<string>, route: string, result: string)

  datatype State = State(entries: map<Slot, StoredResponse>, performed: seq<Performed>)

  /**
    A request: `storing` tells the paths that record their response from the queueing extract and retry paths, which
    never do; `result` is what its operation comes to if it is run, None for an error; `putFails` tells whether
    recording the response raises.
   */
  datatype Event =
    | Request(key: Option<string>, route: string, requestHash: string, storing: bool, result: Option<string>, putFails: bool, at: int)
    | PurgeExpired(cutoff: int)

  datatype Reply =
    | Replayed(status: int, json: string)
    | KeyReused
    | Fresh(result: string)
    | OperationFailed
    | NotRecorded
    | Purged

  function Find(entries: map<Slot, StoredResponse>, key: Option<string>, route: string): Option<StoredResponse> {
    if key.Some? && Slot(key.value, route) in entries then Some(entries[Slot(key.value, route)]) else None
  }

  function Unexpired(entries: map<Slot, StoredResponse>, cutoff: int): map<Slot, StoredResponse> {
    map slot | slot in entries && entries[slot].createdAt >= cutoff :: entries[slot]
  }

  /** One event. `render` turns an operation's result into the recorded JSON, which need not be the first reply's bytes. */
  function Next(render: string -> string, s: State, e: Event): (State, Reply) {
    match e
    case PurgeExpired(cutoff) =>
      (s.(entries := Unexpired(s.entries, cutoff)), Purged)
    case Request(key, route, requestHash, storing, result, putFails, at) =>
      var stored := Find(s.entries, key, route);
      if stored.Some? then
        (s, if stored.value.requestHash == requestHash then Replayed(stored.value.status, stored.value.json) else KeyReused)
      else if result.None? then (s, OperationFailed)
      else
        var after := s.(performed := s.performed + [Performed(key, route, result.value)]);
        if !storing || key.None? then (after, Fresh(result.value))
        else if putFails then (after, NotRecorded)
        else
          var entry := StoredResponse(requestHash, 200, render(result.value), at);
          (after.(entries := s.entries[Slot(key.value, route) := entry]), Fresh(result.value))
  }

  function Run(render: string -> string, s: State, events: seq<Event>): State
    decreases |events|
  {
    if events == [] then s else Run(render, Next(render, s, events[0]).0, events[1..])
  }

  /** The event is a request of this slot on a path that records responses. */
  predicate Concerns(e: Event, slot: Slot) {
    e.Request? && e.key == Some(slot.key) && e.route == slot.route && e.storing
  }

  /** The operation of this slot is run and succeeds. */
  predicate Performs(s: State, e: Event, slot: Slot) {
    Concerns(e, slot) && slot !in s.entries && e.result.Some?
  }

  /** The record of this slot is lost: it expires, or it is not written although the operation succeeded. */
  predicate Lapses(s: State, e: Event, slot: Slot) {
    if e.PurgeExpired? then slot in s.entries && s.entries[slot].createdAt < e.cutoff
    else Performs(s, e, slot) && e.putFails
  }

  /** In terms of the state before and after: the slot has no record, although it had one or its operation has just run. */
  lemma LapseMeans(render: string -> string, s: State, e: Event, slot: Slot)
    ensures var after := Next(render, s, e).0;
            Lapses(s, e, slot) <==>
              && slot !in after.entries
              && (slot in s.entries
                  || (e.Request? && e.storing && e.key == Some(slot.key) && e.route == slot.route && |after.performed| == |s.performed| + 1))
  {
  }

  /** One request, whether or not it names a key. */
  lemma RequestMeans(render: string -> string, s: State, e: Event)
    requires e.Request?
    ensures var (after, reply) := Next(render, s, e);
            var recorded := e.key.Some? && Slot(e.key.value, e.route) in s.entries;
            && (recorded ==> after == s && reply == if s.entries[Slot(e.key.value, e.route)].requestHash == e.requestHash
                                                   then Replayed(s.entries[Slot(e.key.value, e.route)].status, s.entries[Slot(e.key.value, e.route)].json)
                                                   else KeyReused)
            && (!recorded && e.result.None? ==> after == s && reply == OperationFailed)
            && (!recorded && e.result.Some? ==>
                  && after.performed == s.performed + [Performed(e.key, e.route, e.result.value)]
                  && (if e.storing && e.key.Some? && e.putFails then reply == NotRecorded else reply == Fresh(e.result.value))
                  && if e.storing && e.key.Some? && !e.putFails
                     then after.entries == s.entries[Slot(e.key.value, e.route) := StoredResponse(e.requestHash, 200, render(e.result.value), e.at)]
                     else after.entries == s.entries)
  {
  }

  function CountPerformed(render: string -> string, s: State, events: seq<Event>, slot: Slot): nat
    decreases |events|
  {
    if events == [] then 0
    else (if Performs(s, events[0], slot) then 1 else 0) + CountPerformed(render, Next(render, s, events[0]).0, events[1..], slot)
  }

  function CountLapses(render: string -> string, s: State, events: seq<Event>, slot: Slot): nat
    decreases |events|
  {
    if events == [] then 0
    else (if Lapses(s, events[0], slot) then 1 else 0) + CountLapses(render, Next(render, s, events[0]).0, events[1..], slot)
  }

  /**
    On the storing paths an operation succeeds at most once per key and route, and once more at most for each time
    its record lapses.
   */
  lemma {:induction false} SucceedsOncePerLapse(render: string -> string, s: State, events: seq<Event>, slot: Slot)
    ensures CountPerformed(render, s, events, slot) <= (if slot in s.entries then 0 else 1) + CountLapses(render, s, events, slot)
    decreases |events|
  {
    if events != [] {
      SucceedsOncePerLapse(render, Next(render, s, events[0]).0, events[1..], slot);
    }
  }

  /** That bound is reached: with n lapses a storing operation may succeed n + 1 times. */
  lemma {:induction false} EachLapseAllowsOne(render: string -> string, s: State, slot: Slot, n: nat) returns (events: seq<Event>)
    requires slot !in s.entries
    ensures CountPerformed(render, s, events, slot) == n + 1 && CountLapses(render, s, events, slot) == n
    decreases n
  {
    var request, expiry := Request(Some(slot.key), slot.route, "hash", true, Some("result"), false, 0), PurgeExpired(1);
    var recorded := Next(render, s, request).0;
    if n == 0 {
      events := [request];
      assert events[1..] == [];
    } else {
      var lapsed := Next(render, recorded, expiry).0;
      var rest := EachLapseAllowsOne(render, lapsed, slot, n - 1);
      var later := [expiry] + rest;
      events := [request] + later;
      assert later[1..] == rest && events[1..] == later;
    }
  }

  /** A record is never overwritten: without a lapse it stays for good. */
  lemma {:induction false} RecordStays(render: string -> string, s: State, events: seq<Event>, slot: Slot)
    requires slot in s.entries && CountLapses(render, s, events, slot) == 0
    ensures slot in Run(render, s, events).entries && Run(render, s, events).entries[slot] == s.entries[slot]
    decreases |events|
  {
    if events != [] {
      RecordStays(render, Next(render, s, events[0]).0, events[1..], slot);
    }
  }

  /**
    Once an operation succeeded and was recorded, then as long as the record lives every request of that slot with
    the same content gets the recorded response and every other one is refused; neither changes anything.
   */
  lemma SuccessIsReplayed(render: string -> string, s: State, first: Event, between: seq<Event>, later: Event, slot: Slot)
    requires Performs(s, first, slot) && !first.putFails
    requires CountLapses(render, Next(render, s, first).0, between, slot) == 0
    requires later.Request? && later.key == Some(slot.key) && later.route == slot.route
    ensures Next(render, s, first).1 == Fresh(first.result.value)
    ensures var now := Run(render, Next(render, s, first).0, between);
            Next(render, now, later)
            == (now, if later.requestHash == first.requestHash then Replayed(200, render(first.result.value)) else KeyReused)
  {
    RecordStays(render, Next(render, s, first).0, between, slot);
  }

  /** Any two replays of one slot agree, whatever came in between, unless its record lapsed. */
  lemma ReplaysAgree(render: string -> string, s: State, first: Event, between: seq<Event>, later: Event, slot: Slot)
    requires first.Request? && first.key == Some(slot.key) && first.route == slot.route && Next(render, s, first).1.Replayed?
    requires CountLapses(render, s, between, slot) == 0
    requires later.Request? && later.key == first.key && later.route == first.route
    ensures later.requestHash == first.requestHash ==>
              Next(render, Run(render, s, between), later).1 == Next(render, s, first).1
  {
    RecordStays(render, s, between, slot);
  }

  function Operations(performed: seq<Performed>, key: Option<string>, route: string): nat {
    if performed == [] then 0
    else
      var last := performed[|performed| - 1];
      Operations(performed[..|performed| - 1], key, route) + if last.key == key && last.route == route then 1 else 0
  }

  function Positions(performed: seq<Performed>, key: Option<string>, route: string, n: nat): set<nat>
    requires n <= |performed|
  {
    set i: nat | i < n && performed[i].key == key && performed[i].route == route
  }

  lemma {:induction false} OperationsCount(performed: seq<Performed>, key: Option<string>, route: string, n: nat)
    requires n <= |performed|
    ensures Operations(performed[..n], key, route) == |Positions(performed, key, route, n)|
  {
    if n > 0 {
      OperationsCount(performed, key, route, n - 1);
      assert performed[..n][..n - 1] == performed[..n - 1];
      OneMoreOperation(performed, key, route, n - 1);
    }
  }

  lemma OneMoreOperation(performed: seq<Performed>, key: Option<string>, route: string, n: nat)
    requires n < |performed|
    ensures |Positions(performed, key, route, n + 1)|
         == |Positions(performed, key, route, n)| + if performed[n].key == key && performed[n].route == route then 1 else 0
  {
    var before := Positions(performed, key, route, n);
    assert Positions(performed, key, route, n + 1) == if performed[n].key == key && performed[n].route == route then before + {n} else before;
  }

  /** The queueing paths record nothing: two identical requests both run their operation. */
  lemma QueueingIsNotReplayed(render: string -> string, s: State, e: Event)
    requires e.Request? && !e.storing && e.result.Some? && Find(s.entries, e.key, e.route).None?
    ensures var once := Next(render, s, e).0;
            var twice := Next(render, once, e).0;
            && once.entries == twice.entries == s.entries
            && Operations(twice.performed, e.key, e.route) == Operations(s.performed, e.key, e.route) + 2
  {
    var p := Performed(e.key, e.route, e.result.value);
    assert (s.performed + [p])[..|s.performed|] == s.performed;
    assert (s.performed + [p] + [p])[..|s.performed| + 1] == s.performed + [p];
  }

  class IdempotentRoutes {
    const render: string -> string
    var entries: map<Slot, StoredResponse>
    var performed: seq<Performed>

    constructor (dumps: string -> string)
      ensures render == dumps && entries == map[] && performed == []
    {
      render, entries, performed := dumps, map[], [];
    }

    function Now(): State
      reads this
    {
      State(entries, performed)
    }

    /** `_check_idempotency`; None where the request should proceed. */
    method CheckIdempotency(key: Option<string>, route: string, requestHash: string) returns (cached: Option<Reply>)
      ensures var stored := Find(entries, key, route);
              cached == if stored.None? then None
                        else if stored.value.requestHash == requestHash then Some(Replayed(stored.value.status, stored.value.json))
                        else Some(KeyReused)
    {
      if key.None? {
        return None;
      }
      if Slot(key.value, route) !in entries {
        return None;
      }
      var stored := entries[Slot(key.value, route)];
      if stored.requestHash != requestHash {
        return Some(KeyReused);
      }
      return Some(Replayed(stored.status, stored.json));
    }

    /** `_store_idempotency`. */
    method StoreIdempotency(key: Option<string>, route: string, requestHash: string, result: string, fails: bool, at: int)
      returns (ok: bool)
      modifies `entries
      ensures ok <==> key.None? || !fails
      ensures entries == if key.Some? && !fails
                         then old(entries)[Slot(key.value, route) := StoredResponse(requestHash, 200, render(result), at)]
                         else old(entries)
    {
      if key.None? {
        return true;
      }
      if fails {
        return false;
      }
      entries := entries[Slot(key.value, route) := StoredResponse(requestHash, 200, render(result), at)];
      return true;
    }

    /** A POST route around the two: check, run the operation, record its success. */
    method Serve(e: Event) returns (reply: Reply)
      requires e.Request?
      modifies this
      ensures (Now(), reply) == Next(render, old(Now()), e)
    {
      var cached := CheckIdempotency(e.key, e.route, e.requestHash);
      if cached.Some? {
        return cached.value;
      }
      if e.result.None? {
        return OperationFailed;
      }
      performed := performed + [Performed(e.key, e.route, e.result.value)];
      if !e.storing {
        return Fresh(e.result.value);
      }
      var ok := StoreIdempotency(e.key, e.route, e.requestHash, e.result.value, e.putFails, e.at);
      return if ok then Fresh(e.result.value) else NotRecorded;
    }

    /** `purge_expired`: collects the expired keys, then deletes them one by one. */
    method PurgeExpired(cutoff: int)
      modifies `entries
      ensures (Now(), Purged) == Next(render, old(Now()), Event.PurgeExpired(cutoff))
    {
      var expired := set slot | slot in entries && entries[slot].createdAt < cutoff;
      var rest := expired;
      while rest != {}
        invariant rest <= expired
        invariant entries == old(entries) - (expired - rest)
        decreases rest
      {
        var slot :| slot in rest;
        entries := entries - {slot};
        rest := rest - {slot};
      }
      assert entries == Unexpired(old(entries), cutoff);
    }
  }
}
