/**
 Provider routing with overflow switching and failover (src/core/provider.ts, the GET path).

 A pass is one run of the HTTP transport against one provider. Passes are numbered in the
 order they happen and every pass has its own oracle: whether the provider's limiter
 refuses an overflow probe, what the network answers, whether the caller has aborted.
*/
module Routing {
  import opened Wrappers
  import Transport
  import TransportRuns

  // ------------------------------------------------------------- configuration

  /** The resolved settings of one provider on one network. */
  datatype Settings = Settings(limited: bool, retry: Transport.Policy)

  /** One provider in configuration order, with the networks it defines. */
  datatype Provider = Provider(name: string, networks: map<string, Settings>)

  ghost predicate DistinctNames(config: seq<Provider>) {
    forall i, j :: 0 <= i < j < |config| ==> config[i].name != config[j].name
  }

  ghost predicate Distinct(names: seq<string>) {
    forall i, j :: 0 <= i < j < |names| ==> names[i] != names[j]
  }

  function Supporting(config: seq<Provider>, network: string): seq<string> {
    if config == [] then []
    else (if network in config[0].networks then [config[0].name] else []) + Supporting(config[1..], network)
  }

  function IndexOf(names: seq<string>, name: string): (i: nat)
    ensures i <= |names|
    ensures i < |names| ==> names[i] == name
    ensures i == |names| ==> name !in names
  {
    if names == [] then 0 else if names[0] == name then 0 else 1 + IndexOf(names[1..], name)
  }

  /** providersForNetwork: the providers defining `network`, rotated so that `start` comes first. */
  function Rotation(config: seq<Provider>, start: string, network: string): seq<string> {
    var all := Supporting(config, network);
    var i := IndexOf(all, start);
    if i < |all| then all[i..] + all[..i] else all
  }

  // -------------------------------------------------------------------- passes

  datatype Behavior = Queue | Overflow

  /** What becomes of one dispatch: the caller aborts it, the limiter fails, or the network replies. */
  datatype Answer = Aborts | LimiterFails | Replies(reply: Transport.Reply)

  datatype PassWorld = PassWorld(
    full: bool,
    answers: (nat, Transport.Fetch) -> Answer,
    resolve: (string, string) -> Option<Transport.Url>,
    abortsWait: nat -> bool,
    abortedAfter: bool)

  datatype Pass = Pass(index: nat, provider: string, behavior: Behavior, retries: bool)

  /** One routed request: the registry's switches and the world it runs in. */
  datatype Env = Env(
    config: seq<Provider>,
    network: string,
    overflow: bool,
    failover: bool,
    calls: string -> Transport.Call,
    worlds: nat -> PassWorld)

  const NO_RETRY := Transport.Policy(false, 1, false, false, false, false)

  function SettingsOf(config: seq<Provider>, name: string, network: string): Settings {
    if config == [] then Settings(false, NO_RETRY)
    else if config[0].name == name && network in config[0].networks then config[0].networks[network]
    else SettingsOf(config[1..], name, network)
  }

  /**
   attemptDispatcher: only the first dispatch of a pass may probe for capacity, every later
   one waits in the queue; without a limiter the fetch starts at once.
   */
  function DispatcherAnswer(pw: PassWorld, limited: bool, behavior: Behavior, i: nat, f: Transport.Fetch): Transport.Dispatched {
    match pw.answers(i, f)
    case Aborts =>
      if limited then Transport.Refused(Transport.AbortedInDispatch) else Transport.Ran(Transport.Throws(true, false))
    case LimiterFails =>
      if limited then Transport.Refused(Transport.OtherError) else Transport.Ran(Transport.Throws(false, false))
    case Replies(reply) =>
      if limited && i == 0 && behavior == Overflow && pw.full then Transport.Refused(Transport.NoCapacity)
      else Transport.Ran(reply)
  }

  function DispatcherWorld(pw: PassWorld, limited: bool, behavior: Behavior): Transport.World {
    Transport.World((i: nat, f: Transport.Fetch) => DispatcherAnswer(pw, limited, behavior, i, f), pw.resolve, pw.abortsWait)
  }

  function WorldOf(env: Env, p: Pass): Transport.World {
    DispatcherWorld(env.worlds(p.index), SettingsOf(env.config, p.provider, env.network).limited, p.behavior)
  }

  function PolicyOf(env: Env, p: Pass): Transport.Policy {
    if p.retries then SettingsOf(env.config, p.provider, env.network).retry else NO_RETRY
  }

  /** captureGet: one pass of the transport. */
  function RunOf(env: Env, p: Pass): Transport.RequestRun {
    Transport.RequestOf(WorldOf(env, p), env.calls(p.provider), PolicyOf(env, p))
  }

  function ResultOf(env: Env, p: Pass): Transport.RequestResult { RunOf(env, p).result }

  predicate Blocked(env: Env, p: Pass) {
    ResultOf(env, p) == Transport.DispatchFailed(Transport.NoCapacity)
  }

  // ----------------------------------------------------------------- verdicts

  predicate RetryableStatus(status: nat) { 300 <= status < 400 || status == 429 || status >= 500 }

  /** isFailoverFailure: may another provider be tried after this failure? */
  predicate FailoverFailure(env: Env, p: Pass) {
    && !env.worlds(p.index).abortedAfter
    && match ResultOf(env, p)
       case HttpError(status) => RetryableStatus(status)
       case NetworkError(_, _) => true
       case _ => false
  }

  datatype Routed = Returned(provider: string, network: string) | Thrown(error: Transport.RequestResult)

  // ------------------------------------------------------------ specification

  /** The passes that follow a plan until one succeeds or fails for good. */
  function Walk(env: Env, plan: seq<Pass>, last: Transport.RequestResult): (Routed, seq<Pass>)
    decreases |plan|
  {
    if plan == [] then (Thrown(last), [])
    else
      var p := plan[0];
      var r := ResultOf(env, p);
      if r.Succeeded? then (Returned(p.provider, env.network), [p])
      else if !FailoverFailure(env, p) then (Thrown(r), [p])
      else
        var (result, executed) := Walk(env, plan[1..], r);
        (result, [p] + executed)
  }

  function Untried(names: seq<string>, attempted: set<string>): seq<string> {
    if names == [] then []
    else (if names[0] in attempted then [] else [names[0]]) + Untried(names[1..], attempted)
  }

  function Probe(env: Env, name: string, index: nat): Pass {
    Pass(index, name, if env.overflow then Overflow else Queue, false)
  }

  /** The probes, in order, whose provider has immediate capacity. */
  function Free(env: Env, names: seq<string>, index: nat): seq<Pass>
    decreases |names|
  {
    if names == [] then []
    else
      var p := Probe(env, names[0], index);
      (if Blocked(env, p) then [] else [p]) + Free(env, names[1..], index + 1)
  }

  /** The providers, in order, whose probe finds no capacity. */
  function BlockedNames(env: Env, names: seq<string>, index: nat): seq<string>
    decreases |names|
  {
    if names == [] then []
    else (if Blocked(env, Probe(env, names[0], index)) then [names[0]] else []) + BlockedNames(env, names[1..], index + 1)
  }

  /** Queued passes on `names`. */
  function Queued(names: seq<string>, index: nat): seq<Pass>
    decreases |names|
  {
    if names == [] then [] else [Pass(index, names[0], Queue, false)] + Queued(names[1..], index + 1)
  }

  /** Failover's plan: first the providers with immediate capacity, then the blocked ones. */
  function Plan(env: Env, untried: seq<string>, blocked: seq<string>, index: nat): seq<Pass> {
    Free(env, untried, index) + Queued(blocked + BlockedNames(env, untried, index), index + |untried|)
  }

  /** What preemptive selection runs: the first probe with capacity, or a queued pass on `start`. */
  function FirstFit(env: Env, names: seq<string>, start: string, index: nat): Pass
    decreases |names|
  {
    if names == [] then Pass(index, start, Queue, true)
    else
      var p := Pass(index, names[0], Overflow, true);
      if Blocked(env, p) then FirstFit(env, names[1..], start, index + 1) else p
  }

  function InitialPass(env: Env, start: string): Pass {
    var names := Rotation(env.config, start, env.network);
    if env.overflow && |names| > 1 then FirstFit(env, names, start, 0) else Pass(0, start, Queue, true)
  }

  /** The whole request: the selected pass, then failover's plan. */
  function Route(env: Env, start: string): (Routed, seq<Pass>) {
    var p := InitialPass(env, start);
    var r := ResultOf(env, p);
    if r.Succeeded? then (Returned(p.provider, env.network), [p])
    else if !env.failover || !FailoverFailure(env, p) then (Thrown(r), [p])
    else
      var untried := Untried(Rotation(env.config, p.provider, env.network), {p.provider});
      var (result, executed) := Walk(env, Plan(env, untried, [], p.index + 1), r);
      (result, [p] + executed)
  }

  // ------------------------------------------------------------------ the code

  method ScheduleOnTarget(env: Env, p: Pass) returns (result: Transport.RequestResult)
    requires PolicyOf(env, p).maxAttempts >= 1
    ensures result == ResultOf(env, p)
    ensures result == Transport.DispatchFailed(Transport.NoCapacity) <==> Blocked(env, p)
    ensures result == Transport.DispatchFailed(Transport.NoCapacity) <==> LimiterRefuses(env, p)
  {
    BlockedExactly(env, p);
    var run := Transport.Request(WorldOf(env, p), env.calls(p.provider), PolicyOf(env, p));
    return run.result;
  }

  /** Every configured retry policy went through normalization, so it allows an attempt. */
  ghost predicate PoliciesValid(env: Env) {
    forall name :: SettingsOf(env.config, name, env.network).retry.maxAttempts >= 1
  }

  /** The passes of a log that got past their limiter. */
  function Unblocked(env: Env, log: seq<Pass>): seq<Pass> {
    if log == [] then []
    else Unblocked(env, log[..|log| - 1]) + (if Blocked(env, log[|log| - 1]) then [] else [log[|log| - 1]])
  }

  lemma UnblockedAppend(env: Env, log: seq<Pass>, p: Pass)
    ensures Unblocked(env, log + [p]) == if Blocked(env, p) then Unblocked(env, log) else Unblocked(env, log) + [p]
  {
  }

  /** Passes are numbered as they happen. */
  ghost predicate Numbered(log: seq<Pass>, first: nat) {
    forall i :: 0 <= i < |log| ==> log[i].index == first + i
  }

  /** Returns the result of the selected pass and the log of all passes made; the selected one is the last. */
  method PreemptiveGet(env: Env, start: string) returns (result: Transport.RequestResult, log: seq<Pass>)
    requires env.overflow && PoliciesValid(env)
    ensures result == ResultOf(env, InitialPass(env, start))
    ensures log != [] && log[|log| - 1] == InitialPass(env, start) && Numbered(log, 0)
    ensures Unblocked(env, log) == [InitialPass(env, start)]
  {
    hide RunOf, Rotation, Blocked, Unblocked, Numbered;
    InitialNeverBlocked(env, start);
    var providers := Rotation(env.config, start, env.network);
    log := [];
    NothingLogged(env, 0);
    if |providers| <= 1 {
      var only := Pass(0, start, Queue, true);
      Logged(env, log, only, 0);
      result := ScheduleOnTarget(env, only);
      return result, log + [only];
    }
    for i := 0 to |providers|
      invariant FirstFit(env, providers, start, 0) == FirstFit(env, providers[i..], start, i)
      invariant |log| == i && Numbered(log, 0) && Unblocked(env, log) == []
    {
      var probe := Pass(i, providers[i], Overflow, true);
      assert providers[i..][1..] == providers[i + 1..];
      Logged(env, log, probe, 0);
      result := ScheduleOnTarget(env, probe);
      log := log + [probe];
      if result != Transport.DispatchFailed(Transport.NoCapacity) {
        return;
      }
    }
    var queued := Pass(|providers|, start, Queue, true);
    Logged(env, log, queued, 0);
    result := ScheduleOnTarget(env, queued);
    log := log + [queued];
  }

  lemma NothingLogged(env: Env, first: nat)
    ensures Unblocked(env, []) == [] && Numbered([], first)
  {
  }

  lemma Logged(env: Env, log: seq<Pass>, p: Pass, first: nat)
    requires Unblocked(env, log) == [] && Numbered(log, first) && p.index == first + |log|
    ensures Unblocked(env, log + [p]) == if Blocked(env, p) then [] else [p]
    ensures Numbered(log + [p], first)
  {
    hide Blocked;
    UnblockedAppend(env, log, p);
  }

  /** failoverGet. The log holds every pass, `executed` those that got past their limiter. */
  method FailoverGet(env: Env, failed: string, alreadyAttempted: set<string>, originalError: Transport.RequestResult, firstPass: nat)
    returns (result: Routed, executed: seq<Pass>, log: seq<Pass>)
    requires DistinctNames(env.config) && PoliciesValid(env)
    ensures executed == Unblocked(env, log) && Numbered(log, firstPass)
    ensures var untried := Untried(Rotation(env.config, failed, env.network), alreadyAttempted);
            (result, executed) == Walk(env, Plan(env, untried, [], firstPass), originalError)
  {
    hide RunOf, FailoverFailure, Walk, Plan, Rotation, Blocked, Probing, Untried, Unblocked, Distinct, Numbered;
    var providers := Rotation(env.config, failed, env.network);
    ghost var whole := Walk(env, Plan(env, Untried(providers, alreadyAttempted), [], firstPass), originalError);
    RotationDistinct(env.config, failed, env.network);
    var attempted, lastError := alreadyAttempted, originalError;
    var capacityBlocked: seq<string> := [];
    executed, log := [], [];
    ProbingStarts(env, providers, alreadyAttempted, firstPass, originalError);
    for i := 0 to |providers|
      invariant attempted == alreadyAttempted + (set p | p in providers[..i])
      invariant Probing(env, Untried(providers[i..], alreadyAttempted), capacityBlocked, firstPass, lastError, executed, log, whole)
    {
      var provider := providers[i];
      UntriedStep(providers, alreadyAttempted, i);
      if provider in attempted {
        continue;
      }
      attempted := attempted + {provider};
      var probe := Probe(env, provider, firstPass + |log|);
      var outcome := ScheduleOnTarget(env, probe);
      ProbeStep(env, provider, Untried(providers[i + 1..], alreadyAttempted), capacityBlocked, firstPass, lastError, executed, log, whole);
      log := log + [probe];
      if outcome.Succeeded? {
        return Returned(provider, env.network), executed + [probe], log;
      }
      if env.overflow && outcome == Transport.DispatchFailed(Transport.NoCapacity) {
        capacityBlocked := capacityBlocked + [provider];
        continue;
      }
      lastError := outcome;
      executed := executed + [probe];
      if !FailoverFailure(env, probe) {
        return Thrown(lastError), executed, log;
      }
    }
    ProbingEnds(env, providers, alreadyAttempted, capacityBlocked, firstPass, lastError, executed, log, whole);
    var more: seq<Pass>;
    result, more := QueueBlocked(env, capacityBlocked, firstPass + |log|, lastError);
    JoinPhases(env, executed, log, more, firstPass);
    executed, log := executed + more, log + more;
  }

  /** Failover's second phase: the providers that had no capacity, queued in order. */
  method QueueBlocked(env: Env, capacityBlocked: seq<string>, firstPass: nat, originalError: Transport.RequestResult)
    returns (result: Routed, executed: seq<Pass>)
    requires PoliciesValid(env)
    ensures (result, executed) == Walk(env, Queued(capacityBlocked, firstPass), originalError)
    ensures Numbered(executed, firstPass) && forall p :: p in executed ==> p.behavior == Queue
  {
    hide RunOf, FailoverFailure, Walk, OnTrack, Queued;
    ghost var whole := Walk(env, Queued(capacityBlocked, firstPass), originalError);
    var lastError := originalError;
    executed := [];
    assert capacityBlocked[0..] == capacityBlocked;
    WalkStarts(env, Queued(capacityBlocked, firstPass), lastError);
    for i := 0 to |capacityBlocked|
      invariant OnTrack(env, Queued(capacityBlocked[i..], firstPass + i), lastError, executed, whole)
      invariant |executed| == i && Numbered(executed, firstPass) && forall p :: p in executed ==> p.behavior == Queue
    {
      var queued := Pass(firstPass + i, capacityBlocked[i], Queue, false);
      var outcome := ScheduleOnTarget(env, queued);
      ghost var later := Queued(capacityBlocked[i + 1..], firstPass + i + 1);
      QueuedStep(capacityBlocked, i, firstPass + i);
      if outcome.Succeeded? {
        WalkStops(env, queued, later, lastError, executed, whole);
        return Returned(queued.provider, env.network), executed + [queued];
      }
      if !FailoverFailure(env, queued) {
        WalkStops(env, queued, later, lastError, executed, whole);
        return Thrown(outcome), executed + [queued];
      }
      WalkGoesOn(env, queued, later, lastError, executed, whole);
      lastError := outcome;
      executed := executed + [queued];
    }
    result := Thrown(lastError);
    assert capacityBlocked[|capacityBlocked|..] == [];
    NothingQueued(firstPass + |capacityBlocked|);
    WalkEnds(env, lastError, executed, whole);
  }

  /** getWithTarget. */
  method GetWithTarget(env: Env, start: string) returns (result: Routed, executed: seq<Pass>, log: seq<Pass>)
    requires DistinctNames(env.config) && PoliciesValid(env)
    ensures (result, executed) == Route(env, start)
    ensures executed == Unblocked(env, log) && Numbered(log, 0)
  {
    hide RunOf, Walk, Plan, FailoverFailure, Rotation, Blocked, Unblocked, Numbered, FirstFit, DistinctNames;
    var initial, outcome := Pass(0, start, Queue, true), Transport.Aborted;
    log := [];
    if env.overflow {
      outcome, log := PreemptiveGet(env, start);
      initial := log[|log| - 1];
    } else {
      QueueNeverBlocked(env, initial);
      NothingLogged(env, 0);
      Logged(env, log, initial, 0);
      assert log + [initial] == [initial];
      outcome := ScheduleOnTarget(env, initial);
      log := [initial];
    }
    if outcome.Succeeded? {
      return Returned(initial.provider, env.network), [initial], log;
    }
    if !env.failover || !FailoverFailure(env, initial) {
      return Thrown(outcome), [initial], log;
    }
    LastNumber(log, 0);
    var routed, more, rest := FailoverGet(env, initial.provider, {initial.provider}, outcome, |log|);
    UnblockedConcat(env, log, rest);
    NumberedConcat(log, rest, 0);
    return routed, [initial] + more, log + rest;
  }

  // ------------------------------------------------------- lemmas for the loops

  lemma NumberedConcat(a: seq<Pass>, b: seq<Pass>, first: nat)
    requires Numbered(a, first) && Numbered(b, first + |a|)
    ensures Numbered(a + b, first)
  {
  }

  lemma LastNumber(log: seq<Pass>, first: nat)
    requires Numbered(log, first) && log != []
    ensures log[|log| - 1].index + 1 == first + |log|
  {
  }

  lemma UnblockedConcat(env: Env, a: seq<Pass>, b: seq<Pass>)
    ensures Unblocked(env, a + b) == Unblocked(env, a) + Unblocked(env, b)
  {
    hide Blocked, Unblocked;
    NothingLogged(env, 0);
    if b == [] {
      assert a + b == a && Unblocked(env, a) + [] == Unblocked(env, a);
    } else {
      var b', p := b[..|b| - 1], b[|b| - 1];
      assert a + b == (a + b') + [p] && b == b' + [p];
      UnblockedConcat(env, a, b');
      UnblockedAppend(env, a + b', p);
      UnblockedAppend(env, b', p);
      var before, after := Unblocked(env, a), Unblocked(env, b');
      assert before + (after + [p]) == (before + after) + [p];
    }
  }

  lemma UnblockedQueued(env: Env, log: seq<Pass>, more: seq<Pass>)
    requires forall p :: p in more ==> p.behavior == Queue
    ensures Unblocked(env, log + more) == Unblocked(env, log) + more
  {
    hide Blocked, Unblocked;
    if more == [] {
      assert log + more == log && Unblocked(env, log) + [] == Unblocked(env, log);
    } else {
      var rest, p := more[..|more| - 1], more[|more| - 1];
      assert log + more == (log + rest) + [p] && more == rest + [p];
      UnblockedQueued(env, log, rest);
      UnblockedAppend(env, log + rest, p);
      QueueNeverBlocked(env, p);
    }
  }

  /** The selected pass is never one that was refused for lack of capacity. */
  lemma InitialNeverBlocked(env: Env, start: string)
    ensures !Blocked(env, InitialPass(env, start))
  {
    hide Blocked, Rotation;
    var names := Rotation(env.config, start, env.network);
    if env.overflow && |names| > 1 {
      FirstFitNeverBlocked(env, names, start, 0);
    } else {
      QueueNeverBlocked(env, Pass(0, start, Queue, true));
    }
  }

  lemma {:induction false} FirstFitNeverBlocked(env: Env, names: seq<string>, start: string, index: nat)
    ensures !Blocked(env, FirstFit(env, names, start, index))
    ensures FirstFit(env, names, start, index).provider in names + [start]
    ensures FirstFit(env, names, start, index).retries
    decreases |names|
  {
    hide Blocked;
    if names == [] {
      QueueNeverBlocked(env, Pass(index, start, Queue, true));
    } else {
      FirstFitNeverBlocked(env, names[1..], start, index + 1);
    }
  }

  /** A walk that has executed `done` and still has `plan` to go ends as `whole` does. */
  ghost predicate OnTrack(env: Env, plan: seq<Pass>, last: Transport.RequestResult, done: seq<Pass>, whole: (Routed, seq<Pass>)) {
    whole.0 == Walk(env, plan, last).0 && whole.1 == done + Walk(env, plan, last).1
  }

  lemma WalkStarts(env: Env, plan: seq<Pass>, last: Transport.RequestResult)
    ensures OnTrack(env, plan, last, [], Walk(env, plan, last))
  {
    hide Walk;
    assert [] + Walk(env, plan, last).1 == Walk(env, plan, last).1;
  }

  lemma QueuedStep(names: seq<string>, i: nat, index: nat)
    requires i < |names|
    ensures Queued(names[i..], index) == [Pass(index, names[i], Queue, false)] + Queued(names[i + 1..], index + 1)
  {
    assert names[i..][1..] == names[i + 1..];
  }

  lemma NothingQueued(index: nat)
    ensures Queued([], index) == []
  {
  }

  lemma WalkStops(env: Env, p: Pass, rest: seq<Pass>, last: Transport.RequestResult, done: seq<Pass>, whole: (Routed, seq<Pass>))
    requires OnTrack(env, [p] + rest, last, done, whole)
    requires ResultOf(env, p).Succeeded? || !FailoverFailure(env, p)
    ensures whole.1 == done + [p]
    ensures whole.0 == if ResultOf(env, p).Succeeded? then Returned(p.provider, env.network) else Thrown(ResultOf(env, p))
  {
  }

  lemma WalkGoesOn(env: Env, p: Pass, rest: seq<Pass>, last: Transport.RequestResult, done: seq<Pass>, whole: (Routed, seq<Pass>))
    requires OnTrack(env, [p] + rest, last, done, whole)
    requires !ResultOf(env, p).Succeeded? && FailoverFailure(env, p)
    ensures OnTrack(env, rest, ResultOf(env, p), done + [p], whole)
  {
  }

  lemma WalkEnds(env: Env, last: Transport.RequestResult, done: seq<Pass>, whole: (Routed, seq<Pass>))
    requires OnTrack(env, [], last, done, whole)
    ensures whole == (Thrown(last), done)
  {
    assert done + [] == done;
  }

  /** The first phase of failover with `todo` still to be probed and `log` the passes made so far. */
  ghost predicate Probing(env: Env, todo: seq<string>, blocked: seq<string>, first: nat, last: Transport.RequestResult,
                          executed: seq<Pass>, log: seq<Pass>, whole: (Routed, seq<Pass>)) {
    && OnTrack(env, Plan(env, todo, blocked, first + |log|), last, executed, whole)
    && executed == Unblocked(env, log)
    && Numbered(log, first)
  }

  lemma ProbingStarts(env: Env, names: seq<string>, attempted: set<string>, first: nat, last: Transport.RequestResult)
    ensures Probing(env, Untried(names[0..], attempted), [], first, last, [], [],
                    Walk(env, Plan(env, Untried(names, attempted), [], first), last))
  {
    hide Walk, Plan, Untried, Blocked;
    assert names[0..] == names;
    var plan := Plan(env, Untried(names, attempted), [], first);
    assert [] + Walk(env, plan, last).1 == Walk(env, plan, last).1;
  }

  /** One probe: it is blocked, or ends the walk, or the walk goes on after it. */
  lemma ProbeStep(env: Env, name: string, later: seq<string>, blocked: seq<string>, first: nat, last: Transport.RequestResult,
                  executed: seq<Pass>, log: seq<Pass>, whole: (Routed, seq<Pass>))
    requires Probing(env, [name] + later, blocked, first, last, executed, log, whole)
    ensures var p := Probe(env, name, first + |log|);
            && (Blocked(env, p) ==>
                  env.overflow && Probing(env, later, blocked + [name], first, last, executed, log + [p], whole))
            && (!Blocked(env, p) ==> Unblocked(env, log + [p]) == executed + [p])
            && (!Blocked(env, p) && ResultOf(env, p).Succeeded? ==> whole == (Returned(name, env.network), executed + [p]))
            && (!Blocked(env, p) && !ResultOf(env, p).Succeeded? ==>
                  if FailoverFailure(env, p)
                  then Probing(env, later, blocked, first, ResultOf(env, p), executed + [p], log + [p], whole)
                  else whole == (Thrown(ResultOf(env, p)), executed + [p]))
            && Numbered(log + [p], first)
            && (ResultOf(env, p).Succeeded? ==> !Blocked(env, p))
  {
    hide RunOf, FailoverFailure, Walk, Plan, OnTrack, Unblocked;
    var index := first + |log|;
    var p := Probe(env, name, index);
    PlanStep(env, name, later, blocked, index);
    QueueNeverBlocked(env, p);
    UnblockedAppend(env, log, p);
    if !Blocked(env, p) {
      if ResultOf(env, p).Succeeded? || !FailoverFailure(env, p) {
        WalkStops(env, p, Plan(env, later, blocked, index + 1), last, executed, whole);
      } else {
        WalkGoesOn(env, p, Plan(env, later, blocked, index + 1), last, executed, whole);
      }
    }
  }

  lemma ProbingEnds(env: Env, names: seq<string>, attempted: set<string>, blocked: seq<string>, first: nat,
                    last: Transport.RequestResult, executed: seq<Pass>, log: seq<Pass>, whole: (Routed, seq<Pass>))
    requires Probing(env, Untried(names[|names|..], attempted), blocked, first, last, executed, log, whole)
    ensures var rest := Walk(env, Queued(blocked, first + |log|), last);
            whole == (rest.0, executed + rest.1) && executed == Unblocked(env, log) && Numbered(log, first)
  {
    PlanEnd(env, names, attempted, blocked, first + |log|);
  }

  lemma JoinPhases(env: Env, executed: seq<Pass>, log: seq<Pass>, more: seq<Pass>, first: nat)
    requires executed == Unblocked(env, log) && Numbered(log, first) && Numbered(more, first + |log|)
    requires forall p :: p in more ==> p.behavior == Queue
    ensures executed + more == Unblocked(env, log + more) && Numbered(log + more, first)
  {
    UnblockedQueued(env, log, more);
  }

  lemma UntriedStep(names: seq<string>, attempted: set<string>, i: nat)
    requires i < |names| && Distinct(names)
    ensures names[i] !in names[..i]
    ensures Untried(names[i..], attempted)
         == if names[i] in attempted then Untried(names[i + 1..], attempted)
            else [names[i]] + Untried(names[i + 1..], attempted)
    ensures names[..i + 1] == names[..i] + [names[i]]
  {
    hide Untried, Distinct;
    NotEarlier(names, i);
    UntriedCons(names[i], names[i + 1..], attempted);
    assert names[i..] == [names[i]] + names[i + 1..];
  }

  lemma NotEarlier(names: seq<string>, i: nat)
    requires i < |names| && Distinct(names)
    ensures names[i] !in names[..i]
  {
  }

  lemma UntriedCons(name: string, rest: seq<string>, attempted: set<string>)
    ensures Untried([name] + rest, attempted)
         == if name in attempted then Untried(rest, attempted) else [name] + Untried(rest, attempted)
  {
    assert ([name] + rest)[1..] == rest;
    assert [] + Untried(rest, attempted) == Untried(rest, attempted);
  }

  lemma PlanEnd(env: Env, names: seq<string>, attempted: set<string>, blocked: seq<string>, index: nat)
    ensures Plan(env, Untried(names[|names|..], attempted), blocked, index) == Queued(blocked, index)
  {
    assert names[|names|..] == [] && blocked + [] == blocked;
    assert [] + Queued(blocked, index) == Queued(blocked, index);
  }

  lemma PlanStep(env: Env, name: string, later: seq<string>, blocked: seq<string>, index: nat)
    ensures Plan(env, [name] + later, blocked, index)
         == if Blocked(env, Probe(env, name, index)) then Plan(env, later, blocked + [name], index + 1)
            else [Probe(env, name, index)] + Plan(env, later, blocked, index + 1)
  {
    hide Blocked;
    var names := [name] + later;
    assert names[1..] == later;
    var rest := BlockedNames(env, later, index + 1);
    assert blocked + ([name] + rest) == (blocked + [name]) + rest;
    assert blocked + ([] + rest) == blocked + rest;
    assert [] + Free(env, later, index + 1) == Free(env, later, index + 1);
  }

  /** The limiter is asked for immediate capacity, by the first fetch of an overflow pass, and has none. */
  predicate LimiterRefuses(env: Env, p: Pass) {
    RefusesFirst(env.worlds(p.index), SettingsOf(env.config, p.provider, env.network).limited, p.behavior, env.calls(p.provider))
  }

  predicate RefusesFirst(pw: PassWorld, limited: bool, b: Behavior, call: Transport.Call) {
    limited && b == Overflow && pw.full && pw.answers(0, Transport.Outgoing(call.url, call.verb, call.body)).Replies?
  }

  /** A pass ends for lack of capacity exactly when its limiter refuses its first dispatch. */
  lemma BlockedExactly(env: Env, p: Pass)
    ensures Blocked(env, p) <==> LimiterRefuses(env, p)
    ensures var call := env.calls(p.provider);
            Blocked(env, p) <==>
            SettingsOf(env.config, p.provider, env.network).limited && p.behavior == Overflow && env.worlds(p.index).full &&
            env.worlds(p.index).answers(
              0, Transport.Fetch(call.url, call.verb, if call.verb == Transport.GET then None else call.body)).Replies?
  {
    hide Transport.RequestOf;
    RefusedExactly(WorldOf(env, p), env.worlds(p.index), SettingsOf(env.config, p.provider, env.network).limited,
                   env.calls(p.provider), PolicyOf(env, p), p.behavior);
  }

  lemma RefusedExactly(w: Transport.World, pw: PassWorld, limited: bool, call: Transport.Call, policy: Transport.Policy, b: Behavior)
    requires w == DispatcherWorld(pw, limited, b)
    ensures Transport.RequestOf(w, call, policy).result == Transport.DispatchFailed(Transport.NoCapacity) <==>
            RefusesFirst(pw, limited, b, call)
  {
    hide Transport.RequestOf, TransportRuns.Started;
    TransportRuns.CapacityFailureStartsNothing(w, call, policy);
    if RefusesFirst(pw, limited, b, call) {
      TransportRuns.RefusedAtOnce(w, call, policy, Transport.NoCapacity);
    }
  }

  /** Without an overflow probe there is no capacity failure. */
  lemma QueueNeverBlocked(env: Env, p: Pass)
    ensures p.behavior == Queue ==> !Blocked(env, p)
  {
    hide Blocked;
    BlockedExactly(env, p);
  }

  lemma SupportingNames(config: seq<Provider>, network: string)
    requires DistinctNames(config)
    ensures Distinct(Supporting(config, network))
    ensures forall n :: n in Supporting(config, network) <==> Defines(config, n, network)
  {
    if config != [] {
      var rest := Supporting(config[1..], network);
      SupportingNames(config[1..], network);
      assert config == [config[0]] + config[1..];
      assert forall p :: p in config <==> p == config[0] || p in config[1..];
      assert config[0].name !in rest;
    }
  }

  /** Provider `name` is configured for `network`. */
  ghost predicate Defines(config: seq<Provider>, name: string, network: string) {
    exists p :: p in config && p.name == name && network in p.networks
  }

  lemma RotateDistinct(all: seq<string>, i: nat)
    requires Distinct(all) && i <= |all|
    ensures Distinct(all[i..] + all[..i])
    ensures forall n :: n in all[i..] + all[..i] <==> n in all
  {
  }

  /** The rotation lists every provider that defines the network exactly once, the requested one first. */
  lemma RotationDistinct(config: seq<Provider>, start: string, network: string)
    requires DistinctNames(config)
    ensures Distinct(Rotation(config, start, network))
    ensures forall n :: n in Rotation(config, start, network) <==> Defines(config, n, network)
    ensures Defines(config, start, network) ==> Rotation(config, start, network)[0] == start
  {
    SupportingNames(config, network);
    var all := Supporting(config, network);
    RotateDistinct(all, IndexOf(all, start));
  }
}
