/**
 The overflow limiter of one bucket (src/core/limiter.ts).

 JavaScript runs one turn at a time, so a bucket is a state machine whose steps are the
 turns: a queue-mode submission, Bottleneck registering or failing a job, an overflow
 admission, the start of a flush and its decision once the capacity checks are back.
 Any other step may run between a flush's start and its decision, when it has one to await.
 Bottleneck itself is an oracle: what check() answers, and whether schedule() throws.
*/
module Limiter {
  import opened Wrappers

  /** What became of one overflow admission. */
  datatype Fate =
    | Submitted(id: nat)
    | NoCapacity
    | CheckFailed
    | SubmitThrew
    | SubmittedAndRejected(id: nat)

  datatype Verdict = Verdict(admission: nat, fate: Fate)

  /** A queued microtask, or a flush waiting for the checks of the batch it took. */
  datatype Flush = Microtask | Checking(batch: seq<nat>, pendingAtStart: nat, versionAtStart: nat)

  /** One LimiterEntry, with the flushes under way and a history of admissions. */
  datatype State = State(
    minTime: nat,
    pending: set<nat>,
    version: nat,
    nextId: nat,
    queue: seq<nat>,
    scheduled: bool,
    flushes: seq<Flush>,
    issued: nat,
    verdicts: seq<Verdict>)

  /** Bottleneck's answer to the checks of one batch. */
  datatype Answer = ChecksThrow | Fits(check: nat -> bool)

  datatype Event =
    | Submit(throws: bool)
    | Settle(id: nat)
    | Enqueue
    | Start(flush: nat)
    | Decide(flush: nat, answer: Answer, throwAt: Option<nat>)

  function Init(minTime: nat): State {
    State(minTime, {}, 0, 0, [], false, [], 0, [])
  }

  // ------------------------------------------------------------------ the steps

  /** submit(): register a fresh id; a synchronous throw takes it back. */
  function SubmitStep(s: State, throws: bool): State {
    if throws then s.(version := s.version + 2, nextId := s.nextId + 1, pending := s.pending - {s.nextId})
    else s.(version := s.version + 1, nextId := s.nextId + 1, pending := s.pending + {s.nextId})
  }

  /** The "scheduled" event or the rejection of job `id`, whichever comes first. */
  function SettleStep(s: State, id: nat): State {
    if id in s.pending then s.(pending := s.pending - {id}, version := s.version + 1) else s
  }

  function QueueFlush(s: State): State {
    if s.scheduled then s else s.(scheduled := true, flushes := s.flushes + [Microtask])
  }

  function EnqueueStep(s: State): State {
    QueueFlush(s.(queue := s.queue + [s.issued], issued := s.issued + 1))
  }

  function Refusals(batch: seq<nat>): seq<Verdict> {
    seq(|batch|, i requires 0 <= i < |batch| => Verdict(batch[i], NoCapacity))
  }

  function Finished(s: State, i: nat): State
    requires i < |s.flushes|
  {
    s.(flushes := s.flushes[..i] + s.flushes[i + 1..], scheduled := false)
  }

  /** Under a minimum spacing a batch that finds work pending has nothing to ask. */
  predicate RefusedUnasked(s: State) { s.minTime > 0 && |s.pending| != 0 }

  /**
   The head of flushOverflow's loop: take the whole queue and ask for its capacity, or
   refuse it in the same turn, or finish.
  */
  function LoopHead(s: State, i: nat): State
    requires i < |s.flushes|
  {
    if s.queue == [] then Finished(s, i)
    else if RefusedUnasked(s) then Finished(s.(verdicts := s.verdicts + Refusals(s.queue), queue := []), i)
    else s.(flushes := s.flushes[i := Checking(s.queue, |s.pending|, s.version)], queue := [])
  }

  /** Which members of a batch of `n` the checks report as startable now. */
  predicate Available(minTime: nat, pendingAtStart: nat, steady: bool, check: nat -> bool, i: nat) {
    && steady
    && if minTime > 0 then i == 0 && pendingAtStart == 0 && check(1) else check(pendingAtStart + i + 1)
  }

  /** Length of the longest prefix of 0..n whose members are all available. */
  function Admitted(minTime: nat, pendingAtStart: nat, steady: bool, check: nat -> bool, n: nat): (k: nat)
    ensures k <= n
    ensures forall i :: 0 <= i < k ==> Available(minTime, pendingAtStart, steady, check, i)
    ensures k < n ==> !Available(minTime, pendingAtStart, steady, check, k)
  {
    if n == 0 then 0
    else
      var k := Admitted(minTime, pendingAtStart, steady, check, n - 1);
      if k == n - 1 && Available(minTime, pendingAtStart, steady, check, k) then n else k
  }

  function SubmitMany(s: State, m: nat): (t: State)
    ensures t.minTime == s.minTime && t.queue == s.queue && t.scheduled == s.scheduled
    ensures t.flushes == s.flushes && t.issued == s.issued && t.verdicts == s.verdicts
    ensures t.nextId == s.nextId + m && t.version == s.version + m
  {
    if m == 0 then s else SubmitStep(SubmitMany(s, m - 1), false)
  }

  /** The fate of member `i` of a batch of which `k` are admitted and submission `throwAt` throws. */
  function FateOf(i: nat, k: nat, firstId: nat, throwAt: Option<nat>): Fate {
    if throwAt.Some? && throwAt.value < k then
      if i < throwAt.value then SubmittedAndRejected(firstId + i) else SubmitThrew
    else if i < k then Submitted(firstId + i) else NoCapacity
  }

  predicate Steady(s: State, f: Flush)
    requires f.Checking?
  {
    f.versionAtStart == s.version
  }

  function AdmittedNow(s: State, f: Flush, check: nat -> bool): nat
    requires f.Checking?
  {
    Admitted(s.minTime, f.pendingAtStart, Steady(s, f), check, |f.batch|)
  }

  function NewVerdicts(s: State, f: Flush, answer: Answer, throwAt: Option<nat>): (vs: seq<Verdict>)
    requires f.Checking?
  {
    match answer
    case ChecksThrow => seq(|f.batch|, i requires 0 <= i < |f.batch| => Verdict(f.batch[i], CheckFailed))
    case Fits(check) =>
      seq(|f.batch|, i requires 0 <= i < |f.batch| =>
        Verdict(f.batch[i], FateOf(i, AdmittedNow(s, f, check), s.nextId, throwAt)))
  }

  /** The submissions of a decided batch. */
  function Submissions(s: State, f: Flush, answer: Answer, throwAt: Option<nat>): State
    requires f.Checking?
  {
    match answer
    case ChecksThrow => s
    case Fits(check) =>
      var k := AdmittedNow(s, f, check);
      if throwAt.Some? && throwAt.value < k then SubmitStep(SubmitMany(s, throwAt.value), true)
      else SubmitMany(s, k)
  }

  function DecideStep(s: State, i: nat, answer: Answer, throwAt: Option<nat>): State
    requires i < |s.flushes| && s.flushes[i].Checking?
  {
    var f := s.flushes[i];
    var s' := Submissions(s, f, answer, throwAt);
    LoopHead(s'.(verdicts := s.verdicts + NewVerdicts(s, f, answer, throwAt)), i)
  }

  predicate Enabled(s: State, e: Event) {
    match e
    case Start(i) => i < |s.flushes| && s.flushes[i].Microtask?
    case Decide(i, _, _) => i < |s.flushes| && s.flushes[i].Checking?
    case _ => true
  }

  function Step(s: State, e: Event): State
    requires Enabled(s, e)
  {
    match e
    case Submit(throws) => SubmitStep(s, throws)
    case Settle(id) => SettleStep(s, id)
    case Enqueue => EnqueueStep(s)
    case Start(i) => LoopHead(s, i)
    case Decide(i, answer, throwAt) => DecideStep(s, i, answer, throwAt)
  }

  // --------------------------------------------------------------- the class

  class LimiterEntry {
    const minTime: nat
    var pendingRegistration: set<nat>
    var version: nat
    var nextId: nat
    var overflowQueue: seq<nat>
    var overflowFlushScheduled: bool
    // Suspended flushOverflow activations and the outcome of every admission so far.
    var flushes: seq<Flush>
    var issued: nat
    var verdicts: seq<Verdict>

    ghost function View(): State
      reads this
    {
      State(minTime, pendingRegistration, version, nextId, overflowQueue, overflowFlushScheduled,
            flushes, issued, verdicts)
    }

    constructor (minTime: nat)
      ensures View() == Init(minTime)
    {
      this.minTime := minTime;
      pendingRegistration, version, nextId := {}, 0, 0;
      overflowQueue, overflowFlushScheduled := [], false;
      flushes, issued, verdicts := [], 0, [];
    }

    /** Returns the new job's id; `throws` says whether Bottleneck's schedule() threw. */
    method SubmitTask(throws: bool) returns (id: nat)
      modifies this
      ensures View() == SubmitStep(old(View()), throws) && id == old(nextId)
    {
      id := nextId;
      nextId := nextId + 1;
      pendingRegistration := pendingRegistration + {id};
      version := version + 1;
      if throws {
        if id in pendingRegistration {
          pendingRegistration := pendingRegistration - {id};
          version := version + 1;
        }
        assert pendingRegistration == old(pendingRegistration) - {id};
      }
    }

    method Settled(id: nat)
      modifies this
      ensures View() == SettleStep(old(View()), id)
    {
      if id in pendingRegistration {
        pendingRegistration := pendingRegistration - {id};
        version := version + 1;
      }
    }

    method QueueOverflowFlush()
      modifies this
      ensures View() == QueueFlush(old(View()))
    {
      if overflowFlushScheduled {
        return;
      }
      overflowFlushScheduled := true;
      flushes := flushes + [Microtask];
    }

    /** schedule() in overflow mode. */
    method ScheduleOverflow() returns (admission: nat)
      modifies this
      ensures View() == EnqueueStep(old(View())) && admission == old(issued)
    {
      admission := issued;
      issued := issued + 1;
      overflowQueue := overflowQueue + [admission];
      QueueOverflowFlush();
    }

    method FlushLoopHead(i: nat)
      requires i < |flushes|
      modifies this
      ensures overflowQueue == [] && View() == LoopHead(old(View()), i)
    {
      ghost var s0 := View();
      while |overflowQueue| > 0
        invariant View() == s0 ||
                  (s0.queue != [] && RefusedUnasked(s0) &&
                   View() == s0.(verdicts := s0.verdicts + Refusals(s0.queue), queue := []))
        decreases |overflowQueue|
      {
        var batch := overflowQueue;
        overflowQueue := [];
        var pending := |pendingRegistration|;
        if minTime > 0 && pending != 0 {
          // Nothing is awaited: every member is refused and the loop tests the queue again.
          verdicts := verdicts + Refusals(batch);
        } else {
          flushes := flushes[i := Checking(batch, pending, version)];
          return;
        }
      }
      overflowFlushScheduled := false;
      flushes := flushes[..i] + flushes[i + 1..];
      // The finally block would queue another flush here; the guard never holds.
      assert !(|overflowQueue| > 0);
    }

    /**
     The checks of one batch, with the answers after the first refusal turned into
     refusals, so that what is admitted is a prefix.
     */
    method AvailablePrefix(n: nat, pending: nat, steady: bool, check: nat -> bool) returns (available: seq<bool>)
      ensures |available| == n
      ensures forall j :: 0 <= j < n ==> available[j] == (j < Admitted(minTime, pending, steady, check, n))
    {
      available := [];
      var prefixAvailable := true;
      ghost var k := Admitted(minTime, pending, steady, check, n);
      for index := 0 to n
        invariant |available| == index && prefixAvailable == (index <= k)
        invariant forall j :: 0 <= j < index ==> available[j] == (j < k)
      {
        var value := if minTime > 0 then index == 0 && pending == 0 && check(1) else check(pending + index + 1);
        if !steady {
          value := false;
        }
        assert value == Available(minTime, pending, steady, check, index);
        prefixAvailable := prefixAvailable && value;
        available := available + [prefixAvailable];
      }
    }

    /** Submits or refuses the members of a batch in order, `k` being the admitted prefix. */
    method AdmitBatch(available: seq<bool>, ghost k: nat, throwAt: Option<nat>) returns (fates: seq<Fate>)
      requires k <= |available| && forall j :: 0 <= j < |available| ==> available[j] == (j < k)
      modifies this
      ensures View() == if throwAt.Some? && throwAt.value < k
                        then SubmitStep(SubmitMany(old(View()), throwAt.value), true)
                        else SubmitMany(old(View()), k)
      ensures |fates| == |available|
      ensures forall j :: 0 <= j < |fates| ==> fates[j] == FateOf(j, k, old(nextId), throwAt)
    {
      ghost var s0 := View();
      fates := [];
      for index := 0 to |available|
        invariant |fates| == index
        invariant throwAt.Some? && throwAt.value < k ==> index <= throwAt.value
        invariant View() == SubmitMany(s0, if index <= k then index else k)
        invariant forall j :: 0 <= j < index ==>
          fates[j] == if j < k then Submitted(s0.nextId + j) else NoCapacity
      {
        if !available[index] {
          fates := fates + [NoCapacity];
        } else {
          var throws := throwAt == Some(index);
          var id := SubmitTask(throws);
          if throws {
            // catch: every admission of the batch is rejected, also those already submitted.
            fates := seq(|available|, j requires 0 <= j < |available| =>
              if j < |fates| && fates[j].Submitted? then SubmittedAndRejected(fates[j].id) else SubmitThrew);
            return;
          }
          fates := fates + [Submitted(id)];
        }
      }
    }

    /** One pass of the flush loop after its awaits, and the next loop test. */
    method FlushDecide(i: nat, answer: Answer, throwAt: Option<nat>)
      requires i < |flushes| && flushes[i].Checking?
      modifies this
      ensures View() == DecideStep(old(View()), i, answer, throwAt)
    {
      ghost var s0 := View();
      var flush := flushes[i];
      var fates: seq<Fate>;
      if answer.ChecksThrow? {
        fates := seq(|flush.batch|, j => CheckFailed);
      } else {
        var steady := flush.versionAtStart == version;
        var available := AvailablePrefix(|flush.batch|, flush.pendingAtStart, steady, answer.check);
        fates := AdmitBatch(available, AdmittedNow(s0, flush, answer.check), throwAt);
      }
      var decided := seq(|flush.batch|, j requires 0 <= j < |flush.batch| && |fates| == |flush.batch| =>
        Verdict(flush.batch[j], fates[j]));
      assert decided == NewVerdicts(s0, flush, answer, throwAt);
      verdicts := verdicts + decided;
      FlushLoopHead(i);
    }
  }
}
