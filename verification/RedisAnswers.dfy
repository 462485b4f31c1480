/** What each mutation call reports and has done, read off the answers that Redis gave to its commands. */
module RedisAnswers {
  import opened Wrappers
  import opened RedisMutations
  import opened RedisMutationRuns

  /** The answer to one command: whether Redis applied it, and whether it said so. */
  datatype Answer = Answer(applied: bool, ok: bool)

  /** The calls that a list of events makes, in order. */
  function Made(events: seq<Event>): seq<(string, Op)> {
    if events == [] then []
    else (if events[0].Make? then [(events[0].key, events[0].op)] else []) + Made(events[1..])
  }

  /** The answer that event `e` gives to call `i`, if it happens and is one. */
  function AnswerIn(s: State, e: Event, i: nat): seq<Answer> {
    if !Enabled(s, e) then []
    else
      match e
      case First(j, applied, ok) => if j == i then [Answer(applied, ok)] else []
      case Second(j, applied, ok) => if j == i then [Answer(applied, ok)] else []
      case _ => []
  }

  /** The answers that a run from `s` gives to the commands of call `i`, in order. */
  function Answers(s: State, events: seq<Event>, i: nat): seq<Answer>
    decreases |events|
  {
    if events == [] then [] else AnswerIn(s, events[0], i) + Answers(Attempt(s, events[0]), events[1..], i)
  }

  /** The operation has an expiry command after its first one. */
  predicate Leases(op: Op) { op.SetOp? && op.ttl.Some? }

  /**
   Where a call stands and what it has done, given the answers so far: before the first one
   nothing; after it the call has settled as it says, unless it was a set's with an expiry
   still to come; after the second it has settled as that one says.
  */
  predicate StandsAt(c: Call, answers: seq<Answer>) {
    if answers == [] then !c.phase.Settled? && !c.phase.Stored? && c.effect == Nothing
    else
      var a := answers[0];
      var done := if !a.applied then Nothing else if c.op.DeleteOp? then Deleted else Plain;
      if |answers| == 1 then
        if a.ok && Leases(c.op) then c.phase == Stored && c.effect == done
        else c.phase == Settled(a.ok) && c.effect == done
      else
        |answers| == 2 && a.ok && Leases(c.op) && c.phase == Settled(answers[1].ok) &&
        c.effect == if answers[1].applied then Leased else done
  }

  ghost predicate Recorded(s: State, made: seq<(string, Op)>) {
    |s.calls| == |made| && forall i :: 0 <= i < |made| ==> s.calls[i].key == made[i].0 && s.calls[i].op == made[i].1
  }

  lemma StepRecords(s: State, e: Event, made: seq<(string, Op)>)
    requires Recorded(s, made)
    ensures Recorded(Attempt(s, e), made + if e.Make? then [(e.key, e.op)] else [])
  {
  }

  lemma {:induction false} RunRecords(s: State, events: seq<Event>, made: seq<(string, Op)>)
    requires Recorded(s, made)
    ensures Recorded(Exec(s, events), made + Made(events))
    decreases |events|
  {
    hide Recorded, Attempt;
    if events != [] {
      var now := if events[0].Make? then [(events[0].key, events[0].op)] else [];
      StepRecords(s, events[0], made);
      RunRecords(Attempt(s, events[0]), events[1..], made + now);
      assert (made + now) + Made(events[1..]) == made + (now + Made(events[1..]));
    } else {
      assert made + [] == made;
    }
  }

  /** In every run the calls are the ones made, on their keys and with their operations, in the order in which they were made. */
  lemma CallsAreThoseMade(events: seq<Event>)
    ensures Recorded(Exec(Init, events), Made(events))
  {
    RunRecords(Init, events, []);
    assert [] + Made(events) == Made(events);
  }

  ghost predicate Tally(s: State, i: nat, answers: seq<Answer>) {
    if i < |s.calls| then StandsAt(s.calls[i], answers) else answers == []
  }

  lemma StepTally(s: State, e: Event, i: nat, answers: seq<Answer>)
    requires Tally(s, i, answers)
    ensures Tally(Attempt(s, e), i, answers + AnswerIn(s, e, i))
  {
    assert answers + [] == answers;
    if Enabled(s, e) && e.First? && e.call == i {
      assert answers == [];
    }
    if Enabled(s, e) && e.Second? && e.call == i {
      assert |answers| == 1;
    }
  }

  lemma {:induction false} RunTally(s: State, events: seq<Event>, i: nat, answers: seq<Answer>)
    requires Tally(s, i, answers)
    ensures Tally(Exec(s, events), i, answers + Answers(s, events, i))
    decreases |events|
  {
    hide Tally, Attempt, AnswerIn;
    if events != [] {
      var e, now := events[0], AnswerIn(s, events[0], i);
      StepTally(s, e, i, answers);
      RunTally(Attempt(s, e), events[1..], i, answers + now);
      var later := Answers(Attempt(s, e), events[1..], i);
      assert (answers + now) + later == answers + (now + later);
    } else {
      assert answers + [] == answers;
    }
  }

  /** In every run each call stands where the answers to its own commands put it, and has done what they say. */
  lemma CallsStandAsAnswered(events: seq<Event>, i: nat)
    requires i < |Exec(Init, events).calls|
    ensures StandsAt(Exec(Init, events).calls[i], Answers(Init, events, i))
  {
    RunTally(Init, events, i, []);
    assert [] + Answers(Init, events, i) == Answers(Init, events, i);
  }

  /**
   A settled call reports success exactly when every answer the run gave to its commands was
   good. It has had one answer, or two if it is a set with an expiry whose first one was good.
  */
  lemma SucceedsIffAllGood(events: seq<Event>, i: nat)
    requires var s := Exec(Init, events); i < |s.calls| && s.calls[i].phase.Settled?
    ensures var s, answers := Exec(Init, events), Answers(Init, events, i);
            && i < |Made(events)|
            && |answers| == (if Leases(Made(events)[i].1) && answers != [] && answers[0].ok then 2 else 1)
            && (s.calls[i].phase == Settled(true) <==> forall k :: 0 <= k < |answers| ==> answers[k].ok)
  {
    CallsAreThoseMade(events);
    CallsStandAsAnswered(events, i);
  }

  /** When a lease ends the key holds nothing, and no other key changes. */
  lemma LapseTakesTheValue(s: State, key: string, other: string)
    requires Enabled(s, Lapse(key))
    ensures Held(Step(s, Lapse(key)), other) == if other == key then None else Held(s, other)
  {
  }
}
