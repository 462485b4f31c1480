/**
 The per-key mutation queue of the Redis cache adapter for friendly-only clients
 (src/core/cache-redis.ts). Adapters that share a client share its map of promise tails.

 A `set` may take two commands, SET and then an expiry command. Any number of calls, on any
 keys, run interleaved; each command may fail, and may have been applied although its reply
 says it failed. A key with a lease may lapse in Redis at any moment.
*/
module RedisMutations {
  import opened Wrappers

  /** `ttl` is None when the adapter does not use Redis expiry. */
  datatype Op = SetOp(value: string, ttl: Option<nat>) | DeleteOp

  /** Where a call's operation stands. */
  datatype Phase = Waiting | Started | Stored | Settled(ok: bool)

  /** What the call has done to its key so far. */
  datatype Effect = Nothing | Deleted | Plain | Leased

  datatype Call = Call(key: string, op: Op, previous: Option<nat>, phase: Phase, effect: Effect, cleaned: bool)

  /** What Redis holds: the call whose value it is, and the lease. */
  datatype Cell = Cell(writer: nat, lease: Option<nat>)

  /** Calls are numbered in the order in which they were made. */
  datatype State = State(calls: seq<Call>, tails: map<string, nat>, store: map<string, Cell>, lapsed: set<nat>)

  datatype Event =
    | Make(key: string, op: Op)
    | Begin(call: nat)
    | First(call: nat, applied: bool, ok: bool)
    | Second(call: nat, applied: bool, ok: bool)
    | Cleanup(call: nat)
    | Lapse(key: string)

  const Init := State([], map[], map[], {})

  /** The promise a call waits for: its predecessor's tail, which fulfils when that call settles. */
  predicate PreviousDone(s: State, c: Call) {
    c.previous.None? || (c.previous.value < |s.calls| && s.calls[c.previous.value].phase.Settled?)
  }

  predicate Enabled(s: State, e: Event) {
    match e
    case Make(_, _) => true
    case Begin(i) => i < |s.calls| && s.calls[i].phase.Waiting? && PreviousDone(s, s.calls[i])
    // A command that is reported to have succeeded was applied.
    case First(i, applied, ok) => i < |s.calls| && s.calls[i].phase.Started? && (ok ==> applied)
    case Second(i, applied, ok) => i < |s.calls| && s.calls[i].phase.Stored? && (ok ==> applied)
    case Cleanup(i) => i < |s.calls| && s.calls[i].phase.Settled? && !s.calls[i].cleaned
    case Lapse(key) => key in s.store && s.store[key].lease.Some?
  }

  function MakeStep(s: State, key: string, op: Op): State {
    var previous := if key in s.tails then Some(s.tails[key]) else None;
    s.(calls := s.calls + [Call(key, op, previous, Waiting, Nothing, false)], tails := s.tails[key := |s.calls|])
  }

  function FirstStep(s: State, i: nat, applied: bool, ok: bool): State
    requires i < |s.calls|
  {
    var c := s.calls[i];
    match c.op
    case DeleteOp =>
      s.(calls := s.calls[i := c.(phase := Settled(ok), effect := if applied then Deleted else Nothing)],
         store := if applied then s.store - {c.key} else s.store)
    case SetOp(_, ttl) =>
      var phase := if ok && ttl.Some? then Stored else Settled(ok);
      s.(calls := s.calls[i := c.(phase := phase, effect := if applied then Plain else Nothing)],
         store := if applied then s.store[c.key := Cell(i, None)] else s.store)
  }

  /** The expiry command: it gives whatever value the key holds a lease. */
  function SecondStep(s: State, i: nat, applied: bool, ok: bool): State
    requires i < |s.calls| && s.calls[i].op.SetOp?
  {
    var c := s.calls[i];
    s.(calls := s.calls[i := c.(phase := Settled(ok), effect := if applied then Leased else c.effect)],
       store := if applied && c.key in s.store then s.store[c.key := s.store[c.key].(lease := c.op.ttl)] else s.store)
  }

  /** The finally block: drop the tail unless a later call has replaced it. */
  function CleanupStep(s: State, i: nat): State
    requires i < |s.calls|
  {
    var c := s.calls[i];
    s.(calls := s.calls[i := c.(cleaned := true)],
       tails := if c.key in s.tails && s.tails[c.key] == i then s.tails - {c.key} else s.tails)
  }

  function Step(s: State, e: Event): State
    requires Enabled(s, e)
  {
    match e
    case Make(key, op) => MakeStep(s, key, op)
    case Begin(i) => s.(calls := s.calls[i := s.calls[i].(phase := Started)])
    case First(i, applied, ok) => FirstStep(s, i, applied, ok)
    case Second(i, applied, ok) => if s.calls[i].op.SetOp? then SecondStep(s, i, applied, ok) else s
    case Cleanup(i) => CleanupStep(s, i)
    case Lapse(key) => s.(store := s.store - {key}, lapsed := s.lapsed + {s.store[key].writer})
  }

  // ------------------------------------------------------------------- the class

  /** The shared client: its tail map, the calls in flight and the server behind it. */
  class FriendlyClient {
    var calls: seq<Call>
    var friendlyMutationTails: map<string, nat>
    var store: map<string, Cell>
    var lapsed: set<nat>

    ghost function View(): State
      reads this
    {
      State(calls, friendlyMutationTails, store, lapsed)
    }

    constructor ()
      ensures View() == Init
    {
      calls, friendlyMutationTails, store, lapsed := [], map[], map[], {};
    }

    /** withFriendlyMutation up to its await. */
    method WithFriendlyMutation(key: string, op: Op) returns (call: nat)
      modifies this
      ensures call == |old(calls)| && View() == MakeStep(old(View()), key, op)
    {
      var previous := None;
      if key in friendlyMutationTails {
        previous := Some(friendlyMutationTails[key]);
      }
      call := |calls|;
      calls := calls + [Call(key, op, previous, Waiting, Nothing, false)];
      friendlyMutationTails := friendlyMutationTails[key := call];
    }

    /** One mutation from start to settled, with nothing else in between. */
    method RunMutation(i: nat, firstApplied: bool, firstOk: bool, secondApplied: bool, secondOk: bool)
      requires Enabled(View(), Begin(i)) && (firstOk ==> firstApplied) && (secondOk ==> secondApplied)
      modifies this`calls, this`store
      ensures var s1 := Step(old(View()), Begin(i));
              var s2 := Step(s1, First(i, firstApplied, firstOk));
              View() == if s2.calls[i].phase.Stored? then Step(s2, Second(i, secondApplied, secondOk)) else s2
    {
      var c := calls[i].(phase := Started);
      calls := calls[i := c];
      if c.op.DeleteOp? {
        if firstApplied {
          store := store - {c.key};
        }
        calls := calls[i := c.(phase := Settled(firstOk), effect := if firstApplied then Deleted else Nothing)];
        return;
      }
      if firstApplied {
        store := store[c.key := Cell(i, None)];
      }
      c := c.(effect := if firstApplied then Plain else Nothing);
      if !firstOk || c.op.ttl.None? {
        calls := calls[i := c.(phase := Settled(firstOk))];
        return;
      }
      calls := calls[i := c.(phase := Stored)];
      if secondApplied && c.key in store {
        store := store[c.key := store[c.key].(lease := c.op.ttl)];
      }
      calls := calls[i := c.(phase := Settled(secondOk), effect := if secondApplied then Leased else Plain)];
    }

    method Finish(i: nat)
      requires i < |calls|
      modifies this`calls, this`friendlyMutationTails
      ensures View() == CleanupStep(old(View()), i)
    {
      var key := calls[i].key;
      calls := calls[i := calls[i].(cleaned := true)];
      if key in friendlyMutationTails && friendlyMutationTails[key] == i {
        friendlyMutationTails := friendlyMutationTails - {key};
      }
    }
  }

  // --------------------------------------------------------- serial semantics

  /** The last call on `key`, in call order, among the first `n` that had any effect. */
  function LastEffective(s: State, key: string, n: nat): (last: Option<nat>)
    requires n <= |s.calls|
    ensures last.Some? ==> last.value < n
  {
    if n == 0 then None
    else if s.calls[n - 1].key == key && s.calls[n - 1].effect != Nothing then Some(n - 1)
    else LastEffective(s, key, n - 1)
  }

  /**
   What `key` holds if the calls were run one at a time in call order, each an atomic write
   of a value with its own lease, an atomic write without one, or an atomic delete.
   */
  function Serial(s: State, key: string): Option<Cell> {
    match LastEffective(s, key, |s.calls|)
    case None => None
    case Some(i) =>
      match s.calls[i].effect
      case Plain => Some(Cell(i, None))
      case Leased => if i in s.lapsed || s.calls[i].op.DeleteOp? then None else Some(Cell(i, s.calls[i].op.ttl))
      case _ => None
  }

  function Held(s: State, key: string): Option<Cell> {
    if key in s.store then Some(s.store[key]) else None
  }

  // ------------------------------------------------------------------- invariant

  /**
   Two calls i < j on one key: j begins only after i has settled, and whatever j waits for
   settles no earlier than i.
   */
  ghost predicate Ordered(s: State, i: nat, j: nat)
    requires i < j < |s.calls|
  {
    s.calls[i].key == s.calls[j].key ==>
      && (!s.calls[j].phase.Waiting? ==> s.calls[i].phase.Settled?)
      && match s.calls[j].previous
         case None => s.calls[i].phase.Settled?
         case Some(p) => p < j && s.calls[p].key == s.calls[j].key && i <= p
  }

  ghost predicate Order(s: State) {
    forall i, j :: 0 <= i < j < |s.calls| ==> Ordered(s, i, j)
  }

  ghost predicate PreviousOk(s: State) {
    forall j :: 0 <= j < |s.calls| && s.calls[j].previous.Some? ==>
      s.calls[j].previous.value < j && s.calls[s.calls[j].previous.value].key == s.calls[j].key
  }

  /** A tail belongs to the last call on its key, which has not cleaned up yet. */
  ghost predicate TailOf(s: State, key: string, last: nat) {
    && last < |s.calls| && s.calls[last].key == key && !s.calls[last].cleaned
    && forall i :: last < i < |s.calls| ==> s.calls[i].key != key
  }

  /** Without a tail every call on the key has settled. */
  ghost predicate TailsOk(s: State) {
    && (forall k :: k in s.tails ==> TailOf(s, k, s.tails[k]))
    && (forall i :: 0 <= i < |s.calls| ==> s.calls[i].key in s.tails || s.calls[i].phase.Settled?)
  }

  ghost predicate CallOk(c: Call) {
    && (c.phase.Waiting? || c.phase.Started? ==> c.effect == Nothing)
    && (c.phase.Stored? ==> c.op.SetOp? && c.op.ttl.Some? && c.effect == Plain)
    && (c.effect == Deleted ==> c.op.DeleteOp?)
    && (c.effect == Plain ==> c.op.SetOp?)
    && (c.effect == Leased ==> c.op.SetOp? && c.op.ttl.Some? && c.phase.Settled?)
    && (c.phase == Settled(true) ==>
          c.effect == match c.op case DeleteOp => Deleted case SetOp(_, ttl) => if ttl.Some? then Leased else Plain)
    && (c.cleaned ==> c.phase.Settled?)
  }

  ghost predicate Inv(s: State) {
    && Order(s) && PreviousOk(s) && TailsOk(s)
    && (forall i :: 0 <= i < |s.calls| ==> CallOk(s.calls[i]))
    && (forall i :: i in s.lapsed ==> i < |s.calls| && s.calls[i].effect == Leased)
    && (forall key :: Held(s, key) == Serial(s, key))
  }
}
