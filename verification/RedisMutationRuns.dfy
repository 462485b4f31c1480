/** Every interleaving of mutations leaves Redis as if the calls had run one at a time. */
module RedisMutationRuns {
  import opened Wrappers
  import opened RedisMutations

  function Attempt(s: State, e: Event): State {
    if Enabled(s, e) then Step(s, e) else s
  }

  function Exec(s: State, events: seq<Event>): State
    decreases |events|
  {
    if events == [] then s else Exec(Attempt(s, events[0]), events[1..])
  }

  // -------------------------------------------------------- the last effective call

  lemma LastEffectiveIs(s: State, key: string, n: nat)
    requires n <= |s.calls|
    ensures match LastEffective(s, key, n)
            case None => forall i :: 0 <= i < n ==> !(s.calls[i].key == key && s.calls[i].effect != Nothing)
            case Some(i) =>
              && i < n && s.calls[i].key == key && s.calls[i].effect != Nothing
              && forall j :: i < j < n ==> !(s.calls[j].key == key && s.calls[j].effect != Nothing)
  {
  }

  /** The last effective call is whichever call has that property. */
  lemma LastEffectiveUnique(s: State, key: string, i: nat)
    requires i < |s.calls| && s.calls[i].key == key && s.calls[i].effect != Nothing
    requires forall j :: i < j < |s.calls| && s.calls[j].key == key ==> s.calls[j].effect == Nothing
    ensures LastEffective(s, key, |s.calls|) == Some(i)
  {
    LastEffectiveIs(s, key, |s.calls|);
  }

  /** Changing calls without touching keys and effects leaves the serial view of a key alone. */
  lemma SerialFrame(s: State, t: State, key: string)
    requires |s.calls| == |t.calls|
    requires forall i :: 0 <= i < |s.calls| ==>
               s.calls[i].key == t.calls[i].key && (s.calls[i].key == key ==> s.calls[i].effect == t.calls[i].effect) &&
               s.calls[i].op == t.calls[i].op
    requires forall i :: 0 <= i < |s.calls| && s.calls[i].key == key ==> (i in s.lapsed <==> i in t.lapsed)
    ensures Serial(s, key) == Serial(t, key)
  {
    LastEffectiveIs(s, key, |s.calls|);
    LastEffectiveIs(t, key, |t.calls|);
  }

  // ------------------------------------------------------------------- preservation

  /** Call `i` changes and no other; it keeps its key and place, and does not come undone. */
  ghost predicate OnlyCall(s: State, t: State, i: nat) {
    && i < |s.calls| == |t.calls| && t.calls == s.calls[i := t.calls[i]]
    && t.calls[i].key == s.calls[i].key && t.calls[i].previous == s.calls[i].previous && t.calls[i].op == s.calls[i].op
    && (s.calls[i].phase.Settled? ==> t.calls[i].phase.Settled?)
  }

  lemma OrderKept(s: State, t: State, i: nat)
    requires Order(s) && OnlyCall(s, t, i)
    requires !t.calls[i].phase.Waiting? ==>
               forall j :: 0 <= j < i && s.calls[j].key == s.calls[i].key ==> s.calls[j].phase.Settled?
    ensures Order(t)
  {
    forall a, b | 0 <= a < b < |t.calls| ensures Ordered(t, a, b) {
      assert Ordered(s, a, b);
    }
  }

  lemma PreviousKept(s: State, t: State, i: nat)
    requires PreviousOk(s) && OnlyCall(s, t, i)
    ensures PreviousOk(t)
  {
  }

  lemma TailsKept(s: State, t: State, i: nat)
    requires TailsOk(s) && OnlyCall(s, t, i) && t.tails == s.tails && t.calls[i].cleaned == s.calls[i].cleaned
    ensures TailsOk(t)
  {
  }

  lemma EarlierSettled(s: State, i: nat)
    requires Order(s) && i < |s.calls| && (!s.calls[i].phase.Waiting? || PreviousDone(s, s.calls[i]))
    ensures forall j :: 0 <= j < i && s.calls[j].key == s.calls[i].key ==> s.calls[j].phase.Settled?
  {
    forall j | 0 <= j < i && s.calls[j].key == s.calls[i].key ensures s.calls[j].phase.Settled? {
      assert Ordered(s, j, i);
      if s.calls[i].previous.Some? && j < s.calls[i].previous.value {
        assert Ordered(s, j, s.calls[i].previous.value);
      }
    }
  }

  /** The invariant without its clause about the store. */
  ghost predicate Shape(s: State) {
    && Order(s) && PreviousOk(s) && TailsOk(s)
    && (forall i :: 0 <= i < |s.calls| ==> CallOk(s.calls[i]))
    && (forall i :: i in s.lapsed ==> i < |s.calls| && s.calls[i].effect == Leased)
  }

  lemma ShapeKept(s: State, t: State, i: nat)
    requires Shape(s) && OnlyCall(s, t, i) && t.tails == s.tails && t.lapsed == s.lapsed && CallOk(t.calls[i])
    requires t.calls[i].cleaned == s.calls[i].cleaned
    requires i in s.lapsed ==> t.calls[i].effect == Leased
    requires !s.calls[i].phase.Waiting? || PreviousDone(s, s.calls[i])
    ensures Shape(t)
  {
    hide Order, PreviousOk, TailsOk, PreviousDone, CallOk;
    EarlierSettled(s, i);
    OrderKept(s, t, i);
    PreviousKept(s, t, i);
    TailsKept(s, t, i);
  }

  lemma MakeShape(s: State, key: string, op: Op)
    requires Shape(s)
    ensures Shape(MakeStep(s, key, op))
  {
    var t, n := MakeStep(s, key, op), |s.calls|;
    assert key in s.tails ==> TailOf(s, key, s.tails[key]);
    assert Order(t) by {
      forall a, b | 0 <= a < b < |t.calls| ensures Ordered(t, a, b) {
        if b < n {
          assert Ordered(s, a, b);
          assert t.calls[a] == s.calls[a] && t.calls[b] == s.calls[b];
        } else {
          assert t.calls[a] == s.calls[a] && t.calls[n].phase.Waiting?;
          assert s.calls[a].key in s.tails || s.calls[a].phase.Settled?;
        }
      }
    }
    assert TailsOk(t) by {
      forall k | k in t.tails ensures TailOf(t, k, t.tails[k]) {
        if k != key {
          assert TailOf(s, k, s.tails[k]);
          assert forall i :: 0 <= i < n ==> t.calls[i] == s.calls[i];
        }
      }
    }
    assert PreviousOk(t);
  }

  lemma MakeInv(s: State, key: string, op: Op)
    requires Inv(s)
    ensures Inv(MakeStep(s, key, op))
  {
    hide Order, PreviousOk, TailsOk, CallOk;
    var t := MakeStep(s, key, op);
    assert Shape(t) by { MakeShape(s, key, op); }
    assert forall i :: 0 <= i < |s.calls| ==> t.calls[i] == s.calls[i];
    forall k ensures Held(t, k) == Serial(t, k) {
      assert Held(s, k) == Serial(s, k);
      LastEffectiveIs(s, k, |s.calls|);
      LastEffectiveIs(t, k, |t.calls|);
      var last := LastEffective(s, k, |s.calls|);
      if last.Some? { LastEffectiveUnique(t, k, last.value); }
    }
  }

  lemma BeginInv(s: State, i: nat)
    requires Inv(s) && Enabled(s, Begin(i))
    ensures Inv(Step(s, Begin(i)))
  {
    hide Order, PreviousOk, TailsOk, Serial;
    var t := Step(s, Begin(i));
    assert CallOk(s.calls[i]);
    ShapeKept(s, t, i);
    forall k ensures Held(t, k) == Serial(t, k) {
      assert Held(s, k) == Serial(s, k);
      SerialFrame(s, t, k);
    }
  }

  lemma CleanupShape(s: State, i: nat)
    requires Shape(s) && Enabled(s, Cleanup(i))
    ensures Shape(CleanupStep(s, i))
  {
    var t := CleanupStep(s, i);
    assert CallOk(s.calls[i]);
    assert Order(t) by { EarlierSettled(s, i); OrderKept(s, t, i); }
    assert PreviousOk(t) by { PreviousKept(s, t, i); }
    var key := s.calls[i].key;
    assert key in s.tails ==> TailOf(s, key, s.tails[key]);
    forall k | k in t.tails ensures TailOf(t, k, t.tails[k]) {
      assert TailOf(s, k, s.tails[k]);
    }
    forall j | 0 <= j < |t.calls| ensures t.calls[j].key in t.tails || t.calls[j].phase.Settled? {
      if j < i { assert Ordered(s, j, i); }
    }
  }

  lemma CleanupInv(s: State, i: nat)
    requires Inv(s) && Enabled(s, Cleanup(i))
    ensures Inv(Step(s, Cleanup(i)))
  {
    hide Order, PreviousOk, TailsOk, Serial, CallOk;
    var t := Step(s, Cleanup(i));
    CleanupShape(s, i);
    forall k ensures Held(t, k) == Serial(t, k) {
      assert Held(s, k) == Serial(s, k);
      SerialFrame(s, t, k);
    }
  }

  lemma LapseInv(s: State, key: string)
    requires Inv(s) && Enabled(s, Lapse(key))
    ensures Inv(Step(s, Lapse(key)))
  {
    var t, w := Step(s, Lapse(key)), s.store[key].writer;
    assert Shape(t) by {
      assert Held(s, key) == Serial(s, key);
      assert LastEffective(s, key, |s.calls|) == Some(w);
      LastEffectiveIs(s, key, |s.calls|);
      assert forall a, b :: 0 <= a < b < |t.calls| && Ordered(s, a, b) ==> Ordered(t, a, b);
    }
    forall k ensures Held(t, k) == Serial(t, k) {
      LapseSerial(s, key, k);
    }
  }

  lemma LapseSerial(s: State, key: string, k: string)
    requires Enabled(s, Lapse(key)) && Held(s, key) == Serial(s, key) && Held(s, k) == Serial(s, k)
    ensures var t := Step(s, Lapse(key)); Held(t, k) == Serial(t, k)
  {
    var t := Step(s, Lapse(key));
    LastEffectiveIs(s, key, |s.calls|);
    LastEffectiveIs(s, k, |s.calls|);
    LastEffectiveIs(t, k, |t.calls|);
  }

  /** No call after an active one on its key has done anything yet. */
  lemma ActiveIsLast(s: State, i: nat, j: nat)
    requires Shape(s) && i < j < |s.calls| && s.calls[i].key == s.calls[j].key && !s.calls[i].phase.Settled?
    ensures s.calls[j].phase.Waiting? && s.calls[j].effect == Nothing
  {
    assert Ordered(s, i, j) && CallOk(s.calls[j]);
  }

  /** What a command that changed the effect of call `i` must leave under its key. */
  function Mark(c: Call, i: nat): Option<Cell> {
    match c.effect
    case Plain => Some(Cell(i, None))
    case Leased => if c.op.SetOp? then Some(Cell(i, c.op.ttl)) else None
    case _ => None
  }

  lemma MarkIsSerial(s: State, t: State, i: nat)
    requires Shape(s) && OnlyCall(s, t, i) && t.lapsed == s.lapsed && CallOk(t.calls[i])
    requires !s.calls[i].phase.Settled? && t.calls[i].effect != Nothing
    ensures Serial(t, s.calls[i].key) == Mark(t.calls[i], i)
  {
    var key := s.calls[i].key;
    assert CallOk(s.calls[i]);
    forall j | i < j < |t.calls| && t.calls[j].key == key ensures t.calls[j].effect == Nothing {
      ActiveIsLast(s, i, j);
    }
    LastEffectiveUnique(t, key, i);
  }

  lemma CommandInv(s: State, t: State, i: nat)
    requires Inv(s) && OnlyCall(s, t, i) && t.tails == s.tails && t.lapsed == s.lapsed
    requires !s.calls[i].phase.Settled? && !s.calls[i].phase.Waiting?
    requires t.calls[i].cleaned == s.calls[i].cleaned && CallOk(t.calls[i])
    requires forall k :: k != s.calls[i].key ==> Held(t, k) == Held(s, k)
    requires Held(t, s.calls[i].key) == if t.calls[i].effect == s.calls[i].effect then Held(s, s.calls[i].key)
                                        else Mark(t.calls[i], i)
    requires t.calls[i].effect != s.calls[i].effect ==> t.calls[i].effect != Nothing
    ensures Inv(t)
  {
    hide Order, PreviousOk, TailsOk, Serial;
    assert CallOk(s.calls[i]);
    ShapeKept(s, t, i);
    forall k ensures Held(t, k) == Serial(t, k) {
      assert Held(s, k) == Serial(s, k);
      if k != s.calls[i].key || t.calls[i].effect == s.calls[i].effect {
        SerialFrame(s, t, k);
      } else {
        MarkIsSerial(s, t, i);
      }
    }
  }

  lemma FirstInv(s: State, i: nat, applied: bool, ok: bool)
    requires Inv(s) && Enabled(s, First(i, applied, ok))
    ensures Inv(Step(s, First(i, applied, ok)))
  {
    assert CallOk(s.calls[i]);
    CommandInv(s, FirstStep(s, i, applied, ok), i);
  }

  /** The expiry command lands on the value that its own call has just written. */
  lemma ExpiryHitsOwnValue(s: State, i: nat)
    requires Inv(s) && i < |s.calls| && s.calls[i].phase.Stored?
    ensures Held(s, s.calls[i].key) == Some(Cell(i, None))
  {
    var key := s.calls[i].key;
    assert CallOk(s.calls[i]);
    forall j | i < j < |s.calls| && s.calls[j].key == key ensures s.calls[j].effect == Nothing {
      ActiveIsLast(s, i, j);
    }
    LastEffectiveUnique(s, key, i);
    assert Held(s, key) == Serial(s, key);
  }

  lemma SecondInv(s: State, i: nat, applied: bool, ok: bool)
    requires Inv(s) && Enabled(s, Second(i, applied, ok))
    ensures Inv(Step(s, Second(i, applied, ok)))
  {
    assert CallOk(s.calls[i]);
    ExpiryHitsOwnValue(s, i);
    CommandInv(s, SecondStep(s, i, applied, ok), i);
  }

  lemma StepInv(s: State, e: Event)
    requires Inv(s) && Enabled(s, e)
    ensures Inv(Step(s, e))
  {
    hide Inv;
    match e {
      case Make(key, op) => MakeInv(s, key, op);
      case Begin(i) => BeginInv(s, i);
      case First(i, applied, ok) => FirstInv(s, i, applied, ok);
      case Second(i, applied, ok) => SecondInv(s, i, applied, ok);
      case Cleanup(i) => CleanupInv(s, i);
      case Lapse(key) => LapseInv(s, key);
    }
  }

  lemma {:induction false} Reachable(s: State, events: seq<Event>)
    requires Inv(s)
    ensures Inv(Exec(s, events))
    decreases |events|
  {
    hide Inv;
    if events != [] {
      if Enabled(s, events[0]) { StepInv(s, events[0]); }
      Reachable(Attempt(s, events[0]), events[1..]);
    }
  }

  // ------------------------------------------------------------------ the theorems

  /**
   Linearizability. In every reachable state, for every interleaving of calls by any number
   of adapters, each key holds what running the calls one at a time in call order leaves.
   */
  lemma EveryInterleavingIsSerial(events: seq<Event>, key: string)
    ensures Held(Exec(Init, events), key) == Serial(Exec(Init, events), key)
  {
    Reachable(Init, events);
  }

  /** A call that reports success took effect as one atomic set-with-lease, plain set or delete. */
  lemma SuccessIsAtomic(events: seq<Event>, i: nat)
    requires var s := Exec(Init, events); i < |s.calls| && s.calls[i].phase == Settled(true)
    ensures var c := Exec(Init, events).calls[i];
            c.effect == match c.op case DeleteOp => Deleted case SetOp(_, ttl) => if ttl.Some? then Leased else Plain
  {
    hide Exec;
    Reachable(Init, events);
    assert CallOk(Exec(Init, events).calls[i]);
  }

  /** A value never carries another call's lease. */
  lemma LeaseIsOwn(events: seq<Event>, key: string)
    requires key in Exec(Init, events).store
    ensures var s := Exec(Init, events);
            var cell := s.store[key];
            && cell.writer < |s.calls| && s.calls[cell.writer].key == key && s.calls[cell.writer].op.SetOp?
            && (cell.lease.Some? ==> cell.lease == s.calls[cell.writer].op.ttl)
  {
    Reachable(Init, events);
    var s := Exec(Init, events);
    assert Held(s, key) == Serial(s, key);
    LastEffectiveIs(s, key, |s.calls|);
    var i := LastEffective(s, key, |s.calls|).value;
    assert CallOk(s.calls[i]);
  }

  /** What the next event of an unsettled call is. */
  function NextEvent(c: Call, i: nat, applied: bool, ok: bool): Event {
    match c.phase
    case Waiting => Begin(i)
    case Started => First(i, applied, ok)
    case _ => Second(i, applied, ok)
  }

  /** The first call on `key` that has not settled. */
  ghost predicate FirstUnsettled(s: State, i: nat) {
    && i < |s.calls| && !s.calls[i].phase.Settled?
    && forall j :: 0 <= j < i && s.calls[j].key == s.calls[i].key ==> s.calls[j].phase.Settled?
  }

  /**
   A failed mutation blocks nobody: whatever the outcome of the calls before it, the first
   unsettled call on a key can always take its next step.
   */
  lemma NothingBlocks(events: seq<Event>, i: nat, applied: bool, ok: bool)
    requires FirstUnsettled(Exec(Init, events), i) && (ok ==> applied)
    ensures var s := Exec(Init, events); Enabled(s, NextEvent(s.calls[i], i, applied, ok))
  {
    Reachable(Init, events);
  }

  /** Once all calls on a key have settled and cleaned up, the tail map has no entry for it. */
  lemma TailsAreReleased(events: seq<Event>, key: string)
    requires var s := Exec(Init, events);
             forall i :: 0 <= i < |s.calls| && s.calls[i].key == key ==> s.calls[i].cleaned
    ensures key !in Exec(Init, events).tails
  {
    Reachable(Init, events);
  }

  /** At most one call on a key is between its first command and settling. */
  lemma MutualExclusion(events: seq<Event>, i: nat, j: nat)
    requires var s := Exec(Init, events);
             i < |s.calls| && j < |s.calls| && s.calls[i].key == s.calls[j].key &&
             (s.calls[i].phase.Started? || s.calls[i].phase.Stored?) &&
             (s.calls[j].phase.Started? || s.calls[j].phase.Stored?)
    ensures i == j
  {
    Reachable(Init, events);
    var s := Exec(Init, events);
    assert i < j ==> Ordered(s, i, j);
    assert j < i ==> Ordered(s, j, i);
  }
}
