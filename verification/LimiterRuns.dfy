/**
 Every reachable state of a limiter bucket: no wakeup is lost, at most one flush runs,
 admissions are decided exactly once and in arrival order, and a flush never admits more
 than the capacity it saw.
*/
module LimiterRuns {
  import opened Wrappers
  import opened Limiter

  /** An event that is not enabled does not happen. */
  function Attempt(s: State, e: Event): State {
    if Enabled(s, e) then Step(s, e) else s
  }

  function Exec(s: State, events: seq<Event>): State
    decreases |events|
  {
    if events == [] then s else Exec(Attempt(s, events[0]), events[1..])
  }

  function UpTo(n: nat): seq<nat> { seq(n, i requires 0 <= i < n => i) }

  function Decided(vs: seq<Verdict>): seq<nat> {
    seq(|vs|, i requires 0 <= i < |vs| => vs[i].admission)
  }

  /** The batch of the flush that is waiting for its checks, if there is one. */
  function InHand(s: State): seq<nat> {
    if |s.flushes| == 1 && s.flushes[0].Checking? then s.flushes[0].batch else []
  }

  ghost predicate Inv(s: State) {
    // Version bookkeeping: every id is added once and removed at most once.
    && (forall id :: id in s.pending ==> id < s.nextId)
    && s.version + |s.pending| == 2 * s.nextId
    // No lost wakeup, and at most one flush.
    && (s.queue != [] ==> s.scheduled)
    && |s.flushes| == (if s.scheduled then 1 else 0)
    && (s.scheduled && s.flushes[0].Microtask? ==> s.queue != [])
    // A snapshot is honest as long as the version has not moved.
    && (s.scheduled && s.flushes[0].Checking? ==>
          && s.flushes[0].batch != []
          && s.flushes[0].versionAtStart <= s.version
          && (s.flushes[0].versionAtStart == s.version ==> s.flushes[0].pendingAtStart == |s.pending|)
          && (s.minTime > 0 ==> s.flushes[0].pendingAtStart == 0))
    // First come, first decided; nobody is lost or decided twice.
    && Decided(s.verdicts) + InHand(s) + s.queue == UpTo(s.issued)
  }

  lemma SubmitManyInv(s: State, m: nat)
    requires forall id :: id in s.pending ==> id < s.nextId
    ensures var t := SubmitMany(s, m);
            && (forall id :: id in t.pending ==> id < t.nextId)
            && |t.pending| == |s.pending| + m
            && (forall id :: id in t.pending <==> id in s.pending || s.nextId <= id < s.nextId + m)
  {
  }

  lemma SubmissionsInv(s: State, f: Flush, answer: Answer, throwAt: Option<nat>)
    requires f.Checking?
    requires forall id :: id in s.pending ==> id < s.nextId
    requires s.version + |s.pending| == 2 * s.nextId
    ensures var t := Submissions(s, f, answer, throwAt);
            && (forall id :: id in t.pending ==> id < t.nextId)
            && t.version + |t.pending| == 2 * t.nextId
            && t == s.(pending := t.pending, version := t.version, nextId := t.nextId)
  {
    if answer.Fits? {
      var k := AdmittedNow(s, f, answer.check);
      SubmitManyInv(s, k);
      if throwAt.Some? {
        SubmitManyInv(s, throwAt.value);
        var t := SubmitMany(s, throwAt.value);
        assert t.pending - {t.nextId} == t.pending;
      }
    }
  }

  /** The head of the flush loop re-establishes everything once its batch is decided. */
  lemma LoopHeadInv(s: State)
    requires |s.flushes| == 1 && s.scheduled
    requires forall id :: id in s.pending ==> id < s.nextId
    requires s.version + |s.pending| == 2 * s.nextId
    requires Decided(s.verdicts) + s.queue == UpTo(s.issued)
    ensures Inv(LoopHead(s, 0))
  {
  }

  lemma EnqueueInv(s: State)
    requires Inv(s)
    ensures Inv(EnqueueStep(s))
  {
    var t := EnqueueStep(s);
    assert InHand(t) == InHand(s);
    calc {
      Decided(t.verdicts) + InHand(t) + t.queue;
      (Decided(s.verdicts) + InHand(s) + s.queue) + [s.issued];
      UpTo(s.issued) + [s.issued];
      UpTo(t.issued);
    }
  }

  lemma StepInv(s: State, e: Event)
    requires Inv(s) && Enabled(s, e)
    ensures Inv(Step(s, e))
  {
    hide LoopHead, DecideStep, Decided, UpTo;
    match e {
      case Submit(throws) =>
        assert s.pending - {s.nextId} == s.pending;
        assert InHand(Step(s, e)) == InHand(s);
      case Settle(id) => assert InHand(Step(s, e)) == InHand(s);
      case Enqueue => EnqueueInv(s);
      case Start(i) => LoopHeadInv(s);
      case Decide(i, answer, throwAt) => DecideInv(s, answer, throwAt);
    }
  }

  lemma DecideInv(s: State, answer: Answer, throwAt: Option<nat>)
    requires Inv(s) && s.scheduled && s.flushes[0].Checking?
    ensures Inv(DecideStep(s, 0, answer, throwAt))
  {
    var f, vs := s.flushes[0], NewVerdicts(s, s.flushes[0], answer, throwAt);
    SubmissionsInv(s, f, answer, throwAt);
    var mid := Submissions(s, f, answer, throwAt).(verdicts := s.verdicts + vs);
    assert Decided(vs) == f.batch;
    assert Decided(mid.verdicts) == Decided(s.verdicts) + f.batch;
    LoopHeadInv(mid);
  }

  /** The invariant holds in every reachable state of every bucket. */
  lemma {:induction false} Reachable(s: State, events: seq<Event>)
    requires Inv(s)
    ensures Inv(Exec(s, events))
    decreases |events|
  {
    if events != [] {
      if Enabled(s, events[0]) {
        StepInv(s, events[0]);
      }
      Reachable(Attempt(s, events[0]), events[1..]);
    }
  }

  lemma InitInv(minTime: nat)
    ensures Inv(Init(minTime))
  {
  }

  /** No lost wakeup: work left in the queue implies the flag and exactly one live flush. */
  lemma NoLostWakeup(minTime: nat, events: seq<Event>)
    ensures var s := Exec(Init(minTime), events);
            && |s.flushes| <= 1
            && (s.scheduled <==> |s.flushes| == 1)
            && (s.queue != [] ==> s.scheduled)
  {
    InitInv(minTime);
    Reachable(Init(minTime), events);
  }

  /** Exactly once: each admission is queued, in hand or decided, and decided in arrival order. */
  lemma DecidedOnceInOrder(minTime: nat, events: seq<Event>)
    ensures var s := Exec(Init(minTime), events);
            && (forall i :: 0 <= i < |s.verdicts| ==> s.verdicts[i].admission == i)
            && |s.verdicts| + |InHand(s)| + |s.queue| == s.issued
  {
    InitInv(minTime);
    Reachable(Init(minTime), events);
    var s := Exec(Init(minTime), events);
    var all := Decided(s.verdicts) + InHand(s) + s.queue;
    forall i | 0 <= i < |s.verdicts| ensures s.verdicts[i].admission == i {
      assert all[i] == Decided(s.verdicts)[i] == UpTo(s.issued)[i];
    }
  }

  // ------------------------------------------------------------------ draining

  lemma ExecThree(s: State, a: Event, b: Event, c: Event)
    ensures Exec(s, [a, b, c]) == Attempt(Attempt(Attempt(s, a), b), c)
  {
    assert [a, b, c][1..] == [b, c] && [b, c][1..] == [c] && [c][1..] == [];
    var s0 := Attempt(s, a);
    var s1 := Attempt(s0, b);
    assert Exec(s0, [b, c]) == Exec(s1, [c]) == Exec(Attempt(s1, c), []);
  }

  lemma StartTakesQueue(s: State)
    requires Inv(s)
    ensures var t := Attempt(s, Start(0));
            Inv(t) && t.issued == s.issued && (t.flushes != [] ==> t.flushes[0].Checking?)
  {
  }

  lemma DecideTakesQueue(s: State, a: Answer, t: Option<nat>)
    requires Inv(s) && (s.flushes != [] ==> s.flushes[0].Checking?)
    ensures var u := Attempt(s, Decide(0, a, t));
            && Inv(u) && u.issued == s.issued && u.queue == []
            && (u.flushes != [] ==> u.flushes[0].Checking?)
            && (s.queue == [] ==> u.flushes == [])
  {
    var e := Decide(0, a, t);
    if Enabled(s, e) {
      StepInv(s, e);
      SubmissionsInv(s, s.flushes[0], a, t);
    }
  }

  /** Two passes of the flush settle everything that is waiting, whatever Bottleneck answers. */
  lemma FlushDrains(s: State, a: Answer, b: Answer, t: Option<nat>, u: Option<nat>)
    requires Inv(s)
    ensures var end := Exec(s, [Start(0), Decide(0, a, t), Decide(0, b, u)]);
            && end.queue == [] && end.flushes == [] && !end.scheduled
            && |end.verdicts| == end.issued == s.issued
  {
    ExecThree(s, Start(0), Decide(0, a, t), Decide(0, b, u));
    StartTakesQueue(s);
    var s0 := Attempt(s, Start(0));
    DecideTakesQueue(s0, a, t);
    var s1 := Attempt(s0, Decide(0, a, t));
    DecideTakesQueue(s1, b, u);
    var s2 := Attempt(s1, Decide(0, b, u));
    assert |Decided(s2.verdicts) + InHand(s2) + s2.queue| == |UpTo(s2.issued)|;
  }

  // ---------------------------------------------------------- what version pins

  lemma StepVersion(s: State, e: Event)
    requires Inv(s) && Enabled(s, e)
    ensures Step(s, e).version >= s.version
    ensures Step(s, e).version == s.version ==>
              Step(s, e).pending == s.pending && Step(s, e).nextId == s.nextId
  {
    hide Inv, NewVerdicts, AdmittedNow, InHand, UpTo;
    if e.Decide? { SubmissionsVersion(s, s.flushes[e.flush], e.answer, e.throwAt); }
  }

  lemma SubmissionsVersion(s: State, f: Flush, answer: Answer, throwAt: Option<nat>)
    requires f.Checking?
    ensures var t := Submissions(s, f, answer, throwAt);
            && t.version >= s.version
            && (t.version == s.version ==> t.pending == s.pending && t.nextId == s.nextId)
            && t.queue == s.queue && t.flushes == s.flushes && t.minTime == s.minTime
  {
    hide AdmittedNow;
  }

  /** Between two states of a run, an unchanged version means an unchanged pending set. */
  lemma {:induction false} VersionPinsPending(s: State, events: seq<Event>)
    requires Inv(s)
    ensures var t := Exec(s, events);
            && t.version >= s.version
            && (t.version == s.version ==> t.pending == s.pending && t.nextId == s.nextId)
    decreases |events|
  {
    if events != [] {
      var e := events[0];
      if Enabled(s, e) {
        StepVersion(s, e);
        StepInv(s, e);
      }
      VersionPinsPending(Attempt(s, e), events[1..]);
    }
  }

  lemma VersionCountsPending(minTime: nat, events: seq<Event>)
    ensures var s := Exec(Init(minTime), events); s.version == 2 * s.nextId - |s.pending|
  {
    InitInv(minTime);
    Reachable(Init(minTime), events);
  }

  // ----------------------------------------------------------- capacity of a flush

  /** check(w) means that weight w fits into `capacity`. */
  ghost predicate MeasuresCapacity(check: nat -> bool, capacity: nat) {
    forall w: nat :: check(w) <==> w <= capacity
  }

  function Min(a: int, b: int): int { if a < b then a else b }

  /**
   What a flush admits, exactly. Nothing if any registration came or went since its
   snapshot; otherwise one task at most under a minimum spacing, and else as many as fit
   beside the pending ones.
   */
  lemma {:induction false} AdmittedExactly(s: State, f: Flush, check: nat -> bool, capacity: nat)
    requires f.Checking? && f.batch != [] && MeasuresCapacity(check, capacity)
    ensures AdmittedNow(s, f, check)
         == if !Steady(s, f) then 0
            else if s.minTime > 0 then (if f.pendingAtStart == 0 && capacity >= 1 then 1 else 0)
            else if capacity <= f.pendingAtStart then 0
            else Min(|f.batch|, capacity - f.pendingAtStart)
  {
    var k := AdmittedNow(s, f, check);
    var at := (i: nat) => Available(s.minTime, f.pendingAtStart, Steady(s, f), check, i);
    if k > 0 { assert at(k - 1); assert at(0); }
    if k < |f.batch| { assert !at(k); }
  }

  /** In every state of a run a flush keeps pending plus admitted within the capacity it saw. */
  lemma FlushWithinCapacity(s: State, check: nat -> bool, capacity: nat)
    requires Inv(s) && s.scheduled && s.flushes[0].Checking?
    requires MeasuresCapacity(check, capacity)
    ensures var k, t := AdmittedNow(s, s.flushes[0], check), Submissions(s, s.flushes[0], Fits(check), None);
            && t.nextId == s.nextId + k && |t.pending| == |s.pending| + k
            && (k > 0 ==> |t.pending| <= capacity)
            && (k > 0 && s.minTime > 0 ==> k == 1 && s.pending == {})
  {
    AdmittedExactly(s, s.flushes[0], check, capacity);
    SubmitManyInv(s, AdmittedNow(s, s.flushes[0], check));
  }

  /** The admitted members are a prefix of the batch; they get consecutive fresh ids, the rest is refused. */
  lemma FlushAdmitsPrefix(s: State, check: nat -> bool, i: nat)
    requires s.flushes != [] && s.flushes[0].Checking? && i < |s.flushes[0].batch|
    ensures var k, t := AdmittedNow(s, s.flushes[0], check), Step(s, Decide(0, Fits(check), None));
            && t.verdicts[..|s.verdicts|] == s.verdicts
            && t.verdicts[|s.verdicts| + i]
               == Verdict(s.flushes[0].batch[i], if i < k then Submitted(s.nextId + i) else NoCapacity)
            && t.pending == Submissions(s, s.flushes[0], Fits(check), None).pending
  {
  }

  /** The two facts above in every reachable state. */
  lemma FlushCapacitySafety(minTime: nat, events: seq<Event>, check: nat -> bool, capacity: nat)
    requires MeasuresCapacity(check, capacity)
    ensures var s := Exec(Init(minTime), events);
            s.flushes != [] && s.flushes[0].Checking? && AdmittedNow(s, s.flushes[0], check) > 0 ==>
              |Step(s, Decide(0, Fits(check), None)).pending| <= capacity
  {
    InitInv(minTime);
    Reachable(Init(minTime), events);
    var s := Exec(Init(minTime), events);
    if s.flushes != [] && s.flushes[0].Checking? {
      FlushWithinCapacity(s, check, capacity);
      FlushAdmitsPrefix(s, check, 0);
    }
  }

  // ------------------------------------------------------------- one fate only

  predicate OneFate(v: Verdict) { !v.fate.SubmittedAndRejected? }

  /**
   A decision gives each admission of its batch one fate, submitted or rejected, if and
   only if Bottleneck's schedule() does not throw synchronously on a later member of the
   admitted prefix. When it does, the catch block rejects members already submitted.
   */
  lemma OneFateUnlessLateThrow(s: State, i: nat, answer: Answer, throwAt: Option<nat>)
    requires i < |s.flushes| && s.flushes[i].Checking?
    ensures var vs := NewVerdicts(s, s.flushes[i], answer, throwAt);
            (forall j :: 0 <= j < |vs| ==> OneFate(vs[j]))
            <==>
            !(answer.Fits? && throwAt.Some? && 1 <= throwAt.value < AdmittedNow(s, s.flushes[i], answer.check))
  {
    var vs := NewVerdicts(s, s.flushes[i], answer, throwAt);
    if answer.Fits? && throwAt.Some? && 1 <= throwAt.value < AdmittedNow(s, s.flushes[i], answer.check) {
      assert !OneFate(vs[0]);
    }
  }

  /** Such a throw is possible: the first of two admitted tasks runs although its caller sees an error. */
  lemma LateThrowExample()
    ensures var s := Exec(Init(0), [Enqueue, Enqueue, Start(0), Decide(0, Fits(w => true), Some(1))]);
            s.verdicts == [Verdict(0, SubmittedAndRejected(0)), Verdict(1, SubmitThrew)] && 0 in s.pending
  {
  }
}
