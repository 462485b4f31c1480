/** What becomes of a waiting burst of overflow admissions, and how the pending set moves. */
module LimiterAdmission {
  import opened Wrappers
  import opened Limiter
  import opened LimiterRuns

  /** How many of `n` waiting tasks start at once: as many as fit beside the pending ones, one under a minimum spacing. */
  function Starting(s: State, n: nat, capacity: nat): nat {
    if s.minTime > 0 then (if s.pending == {} && capacity >= 1 && n >= 1 then 1 else 0)
    else if capacity <= |s.pending| then 0
    else if n <= capacity - |s.pending| then n
    else capacity - |s.pending|
  }

  /** The fates of a batch whose first `k` members start under the ids from `firstId` on. */
  function Started(batch: seq<nat>, k: nat, firstId: nat): seq<Verdict> {
    seq(|batch|, i requires 0 <= i < |batch| => Verdict(batch[i], if i < k then Submitted(firstId + i) else NoCapacity))
  }

  /** The fates when submission number `t` of a starting prefix throws: those before it run although they are rejected too. */
  function ThrownAt(batch: seq<nat>, t: nat, firstId: nat): seq<Verdict> {
    seq(|batch|, i requires 0 <= i < |batch| =>
      Verdict(batch[i], if i < t then SubmittedAndRejected(firstId + i) else SubmitThrew))
  }

  function AllFailed(batch: seq<nat>): seq<Verdict> {
    seq(|batch|, i requires 0 <= i < |batch| => Verdict(batch[i], CheckFailed))
  }

  lemma ExecTwo(s: State, a: Event, b: Event)
    ensures Exec(s, [a, b]) == Attempt(Attempt(s, a), b)
  {
    assert [a, b][1..] == [b] && [b][1..] == [];
    assert Exec(Attempt(s, a), [b]) == Exec(Attempt(Attempt(s, a), b), []);
  }

  ghost predicate Waiting(s: State) { Inv(s) && s.flushes == [Microtask] }

  /**
   From every reachable state with a flush waiting to start, one undisturbed pass decides the
   whole queue by the capacity there is: the first members that fit start, in order and under
   consecutive ids, the rest is refused, and a failing check fails those that were to be asked.
  */
  lemma BurstIsDecided(s: State, answer: Answer, throwAt: Option<nat>, capacity: nat)
    requires Waiting(s) && (answer.Fits? ==> MeasuresCapacity(answer.check, capacity))
    ensures var k := Starting(s, |s.queue|, capacity);
            var end := Exec(s, [Start(0), Decide(0, answer, throwAt)]);
            && end.queue == [] && end.flushes == [] && !end.scheduled
            && end.verdicts == s.verdicts +
                 if s.minTime > 0 && s.pending != {} then Started(s.queue, 0, s.nextId)
                 else if answer.ChecksThrow? then AllFailed(s.queue)
                 else if throwAt.Some? && throwAt.value < k then ThrownAt(s.queue, throwAt.value, s.nextId)
                 else Started(s.queue, k, s.nextId)
  {
    ExecTwo(s, Start(0), Decide(0, answer, throwAt));
    var t := Attempt(s, Start(0));
    if s.minTime > 0 && s.pending != {} {
      assert |s.pending| != 0;
      assert t == LoopHead(s, 0) && t.flushes == [];
      assert Refusals(s.queue) == Started(s.queue, 0, s.nextId);
    } else {
      BurstIsAsked(s, t, answer, throwAt, capacity);
    }
  }

  lemma BurstIsAsked(s: State, t: State, answer: Answer, throwAt: Option<nat>, capacity: nat)
    requires Waiting(s) && t == Attempt(s, Start(0)) && !(s.minTime > 0 && s.pending != {})
    requires answer.Fits? ==> MeasuresCapacity(answer.check, capacity)
    ensures var k := Starting(s, |s.queue|, capacity);
            var end := Attempt(t, Decide(0, answer, throwAt));
            && end.queue == [] && end.flushes == [] && !end.scheduled
            && end.verdicts == s.verdicts +
                 if answer.ChecksThrow? then AllFailed(s.queue)
                 else if throwAt.Some? && throwAt.value < k then ThrownAt(s.queue, throwAt.value, s.nextId)
                 else Started(s.queue, k, s.nextId)
  {
    hide Inv, MeasuresCapacity, AdmittedNow, SubmitStep, SubmitMany;
    assert s.queue != [] && |s.flushes| == 1 by { QueueIsWaiting(s); }
    assert s.minTime > 0 ==> |s.pending| == 0;
    var f := Checking(s.queue, |s.pending|, s.version);
    assert t == s.(flushes := [f], queue := []);
    if answer.Fits? {
      AdmittedExactly(t, f, answer.check, capacity);
      assert AdmittedNow(t, f, answer.check) == Starting(s, |s.queue|, capacity) by { NoneOrSome(s); }
    }
    SameButIds(t, f, answer, throwAt);
    BatchVerdicts(t, f, answer, throwAt, Starting(s, |s.queue|, capacity));
  }

  lemma QueueIsWaiting(s: State)
    requires Waiting(s)
    ensures s.queue != [] && |s.flushes| == 1
  {
  }

  lemma NoneOrSome(s: State)
    ensures |s.pending| == 0 <==> s.pending == {}
  {
  }

  lemma SameButIds(t: State, f: Flush, answer: Answer, throwAt: Option<nat>)
    requires f.Checking?
    ensures var u := Submissions(t, f, answer, throwAt);
            && u.queue == t.queue && u.flushes == t.flushes && u.verdicts == t.verdicts && u.minTime == t.minTime
  {
    hide AdmittedNow;
  }

  lemma BatchVerdicts(t: State, f: Flush, answer: Answer, throwAt: Option<nat>, k: nat)
    requires f.Checking? && (answer.Fits? ==> AdmittedNow(t, f, answer.check) == k)
    ensures NewVerdicts(t, f, answer, throwAt) ==
            if answer.ChecksThrow? then AllFailed(f.batch)
            else if throwAt.Some? && throwAt.value < k then ThrownAt(f.batch, throwAt.value, t.nextId)
            else Started(f.batch, k, t.nextId)
  {
    hide AdmittedNow;
  }

  /** The same for every bucket and every run that leads to a waiting flush. */
  lemma WaitingBurstIsDecided(minTime: nat, events: seq<Event>, check: nat -> bool, capacity: nat)
    requires MeasuresCapacity(check, capacity)
    ensures var s := Exec(Init(minTime), events);
            s.flushes == [Microtask] ==>
              var end := Exec(s, [Start(0), Decide(0, Fits(check), None)]);
              && end.queue == [] && !end.scheduled
              && end.verdicts == s.verdicts + Started(s.queue, Starting(s, |s.queue|, capacity), s.nextId)
  {
    InitInv(minTime);
    Reachable(Init(minTime), events);
    var s := Exec(Init(minTime), events);
    hide Exec, Inv, MeasuresCapacity;
    if s.flushes == [Microtask] { BurstIsDecided(s, Fits(check), None, capacity); }
  }

  // ------------------------------------------------------------- the pending set

  /** One of the verdicts says that a task was submitted under `id`. */
  ghost predicate Submits(vs: seq<Verdict>, id: nat) {
    exists j :: 0 <= j < |vs| && (vs[j].fate == Submitted(id) || vs[j].fate == SubmittedAndRejected(id))
  }

  /** The submissions a decision tries: those that succeed, and the one that throws. */
  function Tried(vs: seq<Verdict>): nat {
    if vs == [] then 0
    else if vs[0].fate.SubmitThrew? then 1
    else (if vs[0].fate.Submitted? || vs[0].fate.SubmittedAndRejected? then 1 else 0) + Tried(vs[1..])
  }

  lemma {:induction false} TriedIs(vs: seq<Verdict>, k: nat, firstId: nat, throwAt: Option<nat>, from: nat)
    requires from <= |vs| && k <= |vs| && forall j :: from <= j < |vs| ==> vs[j].fate == FateOf(j, k, firstId, throwAt)
    requires throwAt.Some? && throwAt.value < k ==> from <= throwAt.value
    ensures Tried(vs[from..]) == (if throwAt.Some? && throwAt.value < k then throwAt.value + 1 else if from <= k then k else from) - from
    decreases |vs| - from
  {
    if from < |vs| {
      assert vs[from..][1..] == vs[from + 1..];
      if !(throwAt.Some? && throwAt.value < k && from == throwAt.value) {
        TriedIs(vs, k, firstId, throwAt, from + 1);
      }
    }
  }

  lemma {:induction false} NoneTried(vs: seq<Verdict>)
    requires forall j :: 0 <= j < |vs| ==> vs[j].fate == CheckFailed
    ensures Tried(vs) == 0
  {
    if vs != [] { NoneTried(vs[1..]); }
  }

  /**
   What each event does to the pending set and the ids: a submission that does not throw and
   the submitted members of a decided batch come in under fresh ids, a settled job goes out,
   and nothing else changes it.
  */
  lemma PendingMoves(s: State, e: Event)
    requires Inv(s) && Enabled(s, e)
    ensures var t := Step(s, e);
            match e
            case Submit(throws) => t.pending == (if throws then s.pending else s.pending + {s.nextId}) && t.nextId == s.nextId + 1
            case Settle(id) => t.pending == s.pending - {id} && t.nextId == s.nextId
            case Enqueue => t.pending == s.pending && t.nextId == s.nextId
            case Start(_) => t.pending == s.pending && t.nextId == s.nextId
            case Decide(i, answer, throwAt) =>
              && i < |s.flushes| && s.flushes[i].Checking?
              && (forall id: nat :: id in t.pending <==>
                    id in s.pending || Submits(NewVerdicts(s, s.flushes[i], answer, throwAt), id))
              && (forall id :: id in t.pending - s.pending ==> s.nextId <= id < t.nextId)
              && t.nextId == s.nextId + Tried(NewVerdicts(s, s.flushes[i], answer, throwAt))
  {
    if e.Decide? {
      DecidedIds(s, s.flushes[e.flush], e.answer, e.throwAt);
    } else {
      hide InHand, Decided, UpTo;
    }
  }

  lemma DecidedIds(s: State, f: Flush, answer: Answer, throwAt: Option<nat>)
    requires f.Checking? && forall id :: id in s.pending ==> id < s.nextId
    ensures var u := Submissions(s, f, answer, throwAt);
            && (forall id: nat :: id in u.pending <==> id in s.pending || Submits(NewVerdicts(s, f, answer, throwAt), id))
            && (forall id :: id in u.pending - s.pending ==> s.nextId <= id < u.nextId)
            && u.nextId == s.nextId + Tried(NewVerdicts(s, f, answer, throwAt))
  {
    var vs := NewVerdicts(s, f, answer, throwAt);
    if answer.Fits? {
      var k := AdmittedNow(s, f, answer.check);
      var m := if throwAt.Some? && throwAt.value < k then throwAt.value else k;
      SubmitManyInv(s, m);
      assert s.nextId + m !in SubmitMany(s, m).pending;
      assert |vs| == |f.batch| && forall j :: 0 <= j < |vs| ==> vs[j].fate == FateOf(j, k, s.nextId, throwAt);
      SubmitsThose(vs, k, m, s.nextId, throwAt);
      TriedIs(vs, k, s.nextId, throwAt, 0);
      assert vs[0..] == vs;
    } else {
      NoneTried(vs);
    }
  }

  lemma SubmitsThose(vs: seq<Verdict>, k: nat, m: nat, firstId: nat, throwAt: Option<nat>)
    requires k <= |vs| && forall j :: 0 <= j < |vs| ==> vs[j].fate == FateOf(j, k, firstId, throwAt)
    requires m == if throwAt.Some? && throwAt.value < k then throwAt.value else k
    ensures forall id: nat :: Submits(vs, id) <==> firstId <= id < firstId + m
  {
    forall id: nat | firstId <= id < firstId + m ensures Submits(vs, id) {
      assert vs[id - firstId].fate == FateOf(id - firstId, k, firstId, throwAt);
    }
  }
}
