/** Safety and completeness of whole routed requests. */
module RoutingRuns {
  import opened Routing
  import Transport
  import TransportRuns

  function Names(passes: seq<Pass>): seq<string> {
    seq(|passes|, i requires 0 <= i < |passes| => passes[i].provider)
  }

  // ------------------------------------------------------------------ the plan

  /** The providers whose probe finds room, and those whose probe does not, in the order of `untried`. */
  function WithRoom(env: Env, untried: seq<string>, index: nat): seq<string>
    decreases |untried|
  {
    if untried == [] then []
    else (if Blocked(env, Probe(env, untried[0], index)) then [] else [untried[0]]) + WithRoom(env, untried[1..], index + 1)
  }

  lemma NamesConcat(a: seq<Pass>, b: seq<Pass>)
    ensures Names(a + b) == Names(a) + Names(b)
  {
  }

  lemma {:induction false} FreeNames(env: Env, untried: seq<string>, index: nat)
    ensures Names(Free(env, untried, index)) == WithRoom(env, untried, index)
    ensures forall p :: p in Free(env, untried, index) ==> !Blocked(env, p) && !p.retries
    decreases |untried|
  {
    hide Blocked;
    if untried != [] {
      FreeNames(env, untried[1..], index + 1);
      var p := Probe(env, untried[0], index);
      NamesConcat(if Blocked(env, p) then [] else [p], Free(env, untried[1..], index + 1));
      assert Names([p]) == [untried[0]];
    }
  }

  lemma {:induction false} QueuedNames(env: Env, names: seq<string>, index: nat)
    ensures Names(Queued(names, index)) == names
    ensures forall p :: p in Queued(names, index) ==> !Blocked(env, p) && !p.retries
    decreases |names|
  {
    hide Blocked;
    if names != [] {
      QueuedNames(env, names[1..], index + 1);
      QueueNeverBlocked(env, Pass(index, names[0], Queue, false));
      NamesConcat([Pass(index, names[0], Queue, false)], Queued(names[1..], index + 1));
      assert names == [names[0]] + names[1..];
    }
  }

  lemma {:induction false} RoomOrBlocked(env: Env, untried: seq<string>, index: nat)
    ensures multiset(WithRoom(env, untried, index)) + multiset(BlockedNames(env, untried, index)) == multiset(untried)
    decreases |untried|
  {
    hide Blocked;
    if untried != [] {
      var name, rest := untried[0], untried[1..];
      RoomOrBlocked(env, rest, index + 1);
      assert untried == [name] + rest;
      OneMore(Blocked(env, Probe(env, name, index)), name, WithRoom(env, rest, index + 1),
              BlockedNames(env, rest, index + 1), rest);
    }
  }

  lemma OneMore(isBlocked: bool, name: string, room: seq<string>, blocked: seq<string>, rest: seq<string>)
    requires multiset(room) + multiset(blocked) == multiset(rest)
    ensures multiset((if isBlocked then [] else [name]) + room) + multiset((if isBlocked then [name] else []) + blocked)
         == multiset([name] + rest)
  {
  }

  /**
   Failover's plan is a stable partition of the untried providers: those with immediate
   capacity in rotation order, then the blocked ones in the same order. No pass of the plan
   is refused by its limiter and none retries locally.
   */
  lemma PlanIsStablePartition(env: Env, untried: seq<string>, index: nat)
    ensures Names(Plan(env, untried, [], index)) == WithRoom(env, untried, index) + BlockedNames(env, untried, index)
    ensures multiset(Names(Plan(env, untried, [], index))) == multiset(untried)
    ensures forall p :: p in Plan(env, untried, [], index) ==> !Blocked(env, p) && !p.retries
  {
    hide Blocked, Names, Free, Queued, WithRoom, BlockedNames;
    var later := BlockedNames(env, untried, index);
    assert [] + later == later;
    FreeNames(env, untried, index);
    QueuedNames(env, later, index + |untried|);
    NamesConcat(Free(env, untried, index), Queued(later, index + |untried|));
    RoomOrBlocked(env, untried, index);
  }

  // ------------------------------------------------------------------ the walk

  /** Pass `p` ends a walk: it succeeded, or failed in a way that no other provider can mend. */
  ghost predicate Ends(env: Env, p: Pass) {
    ResultOf(env, p).Succeeded? || !FailoverFailure(env, p)
  }

  ghost function Outcome(env: Env, p: Pass): Routed {
    if ResultOf(env, p).Succeeded? then Returned(p.provider, env.network) else Thrown(ResultOf(env, p))
  }

  /**
   A walk executes the plan up to and including the first pass that ends it and returns that
   pass's outcome; if none does it executes the whole plan and throws the last error, which
   is the original one when the plan is empty.
   */
  ghost predicate CutAtFirstEnd(env: Env, plan: seq<Pass>, original: Transport.RequestResult, result: Routed, executed: seq<Pass>) {
    && executed <= plan
    && (forall i :: 0 <= i < |executed| - 1 ==> !Ends(env, executed[i]))
    && if executed != [] && Ends(env, executed[|executed| - 1])
       then result == Outcome(env, executed[|executed| - 1])
       else executed == plan && result == Thrown(if plan == [] then original else ResultOf(env, plan[|plan| - 1]))
  }

  /**
   What the walk goes on after: a network failure, a redirect status, 429 or a server error,
   unless the caller has aborted. Any other client error ends it at once.
  */
  lemma GoesOnAfter(env: Env, p: Pass)
    ensures !Ends(env, p) <==>
            !env.worlds(p.index).abortedAfter &&
            (ResultOf(env, p).NetworkError? ||
             (ResultOf(env, p).HttpError? && !(400 <= ResultOf(env, p).status < 500 && ResultOf(env, p).status != 429) &&
              ResultOf(env, p).status >= 300))
  {
  }

  lemma {:induction false} WalkCutsAtFirstEnd(env: Env, plan: seq<Pass>, original: Transport.RequestResult)
    ensures CutAtFirstEnd(env, plan, original, Walk(env, plan, original).0, Walk(env, plan, original).1)
    decreases |plan|
  {
    hide ResultOf, FailoverFailure;
    if plan != [] {
      var p, rest := plan[0], plan[1..];
      assert plan == [p] + rest;
      if !Ends(env, p) {
        var (result, executed) := Walk(env, rest, ResultOf(env, p));
        WalkCutsAtFirstEnd(env, rest, ResultOf(env, p));
        CutLater(env, p, rest, original, result, executed);
      }
    }
  }

  lemma CutLater(env: Env, p: Pass, rest: seq<Pass>, original: Transport.RequestResult, result: Routed, executed: seq<Pass>)
    requires !Ends(env, p) && CutAtFirstEnd(env, rest, ResultOf(env, p), result, executed)
    ensures CutAtFirstEnd(env, [p] + rest, original, result, [p] + executed)
  {
    hide ResultOf, Ends, Outcome;
    forall i | 0 <= i < |[p] + executed| - 1 ensures !Ends(env, ([p] + executed)[i]) {
      assert i > 0 ==> ([p] + executed)[i] == executed[i - 1];
    }
  }

  /** Failover executes exactly its plan, cut at the first success or final failure. */
  lemma FailoverExecutesPlan(env: Env, failed: string, attempted: set<string>, original: Transport.RequestResult, index: nat)
    ensures var untried := Untried(Rotation(env.config, failed, env.network), attempted);
            var plan := Plan(env, untried, [], index);
            && CutAtFirstEnd(env, plan, original, Walk(env, plan, original).0, Walk(env, plan, original).1)
            && Names(plan) == WithRoom(env, untried, index) + BlockedNames(env, untried, index)
            && (untried == [] ==> Walk(env, plan, original) == (Thrown(original), []))
  {
    hide Blocked, ResultOf, FailoverFailure, Rotation;
    var untried := Untried(Rotation(env.config, failed, env.network), attempted);
    WalkCutsAtFirstEnd(env, Plan(env, untried, [], index), original);
    PlanIsStablePartition(env, untried, index);
  }

  // ------------------------------------------------------------- whole requests

  /**
   Preemptive selection: provider number k is selected exactly when its probe has room and
   those before it do not; when none has, the request queues where it was asked to go.
  */
  lemma {:induction false} FirstFitIsFirst(env: Env, names: seq<string>, start: string, index: nat, k: nat)
    requires k <= |names| && forall i :: 0 <= i < k ==> Blocked(env, Pass(index + i, names[i], Overflow, true))
    requires k < |names| ==> !Blocked(env, Pass(index + k, names[k], Overflow, true))
    ensures FirstFit(env, names, start, index)
         == if k < |names| then Pass(index + k, names[k], Overflow, true) else Pass(index + k, start, Queue, true)
    decreases k
  {
    hide Blocked;
    if k > 0 {
      assert Blocked(env, Pass(index + 0, names[0], Overflow, true));
      assert forall i :: 0 <= i < k - 1 ==> names[1..][i] == names[i + 1] && index + 1 + i == index + (i + 1);
      forall i | 0 <= i < k - 1 ensures Blocked(env, Pass(index + 1 + i, names[1..][i], Overflow, true)) {
        assert Blocked(env, Pass(index + (i + 1), names[i + 1], Overflow, true));
      }
      FirstFitIsFirst(env, names[1..], start, index + 1, k - 1);
    }
  }

  lemma {:induction false} UntriedIs(names: seq<string>, p: string)
    requires Distinct(names)
    ensures Distinct(Untried(names, {p}))
    ensures forall n :: n in Untried(names, {p}) <==> n in names && n != p
    ensures |Untried(names, {p})| == |names| - if p in names then 1 else 0
  {
    if names != [] {
      assert names == [names[0]] + names[1..];
      var rest := Untried(names[1..], {p});
      UntriedIs(names[1..], p);
      assert forall n :: n in names <==> n == names[0] || n in names[1..];
      assert names[0] !in names[1..] && names[0] !in rest;
      assert Untried(names, {p}) == if names[0] == p then rest else [names[0]] + rest;
    }
  }

  lemma DistinctByMultiset(a: seq<string>, b: seq<string>)
    requires multiset(a) == multiset(b) && Distinct(b)
    ensures Distinct(a) && |a| == |b| && forall n :: n in a <==> n in b
  {
    assert |multiset(a)| == |a| && |multiset(b)| == |b|;
    forall n ensures n in a <==> n in b {
      assert n in a <==> n in multiset(a);
      assert n in b <==> n in multiset(b);
    }
    forall i, j | 0 <= i < j < |a| ensures a[i] != a[j] {
      if a[i] == a[j] {
        assert a == a[..i] + [a[i]] + a[i + 1..j] + [a[j]] + a[j + 1..];
        assert multiset(b)[a[i]] >= 2;
        OnceIfDistinct(b, a[i]);
      }
    }
  }

  lemma OnceIfDistinct(b: seq<string>, n: string)
    requires Distinct(b)
    ensures multiset(b)[n] <= 1
  {
    if b != [] {
      assert b == [b[0]] + b[1..];
      OnceIfDistinct(b[1..], n);
      if b[0] == n { assert n !in b[1..]; }
    }
  }

  /** The plan that follows initial pass `p`, if failover takes place. */
  function FollowUp(env: Env, p: Pass): seq<Pass> {
    Plan(env, Untried(Rotation(env.config, p.provider, env.network), {p.provider}), [], p.index + 1)
  }

  ghost predicate FailsOver(env: Env, p: Pass) {
    env.failover && !Ends(env, p)
  }

  lemma FollowUpIs(env: Env, p: Pass)
    requires DistinctNames(env.config) && Defines(env.config, p.provider, env.network)
    ensures Distinct(Names([p] + FollowUp(env, p)))
    ensures forall n :: n in Names([p] + FollowUp(env, p)) <==> Defines(env.config, n, env.network)
    ensures |[p] + FollowUp(env, p)| == |Rotation(env.config, p.provider, env.network)|
    ensures forall q :: q in FollowUp(env, p) ==> !Blocked(env, q) && !q.retries
  {
    hide Blocked, Rotation, FollowUp, Untried, Distinct, Names, DistinctNames, Defines;
    var names := Rotation(env.config, p.provider, env.network);
    RotationDistinct(env.config, p.provider, env.network);
    UntriedIs(names, p.provider);
    FollowUpNames(env, p, Untried(names, {p.provider}));
    NamesCons(p, FollowUp(env, p));
  }

  lemma FollowUpNames(env: Env, p: Pass, untried: seq<string>)
    requires untried == Untried(Rotation(env.config, p.provider, env.network), {p.provider}) && Distinct(untried)
    ensures Distinct(Names(FollowUp(env, p))) && |Names(FollowUp(env, p))| == |untried|
    ensures forall n :: n in Names(FollowUp(env, p)) <==> n in untried
    ensures forall q :: q in FollowUp(env, p) ==> !Blocked(env, q) && !q.retries
  {
    hide Blocked, Rotation, Plan, Untried, Distinct, Names;
    PlanIsStablePartition(env, untried, p.index + 1);
    DistinctByMultiset(Names(FollowUp(env, p)), untried);
  }

  lemma NamesCons(p: Pass, rest: seq<Pass>)
    requires Distinct(Names(rest)) && p.provider !in Names(rest)
    ensures Distinct(Names([p] + rest)) && |[p] + rest| == 1 + |Names(rest)|
    ensures forall n :: n in Names([p] + rest) <==> n == p.provider || n in Names(rest)
  {
    assert Names([p] + rest) == [p.provider] + Names(rest);
  }

  lemma InitialDefined(env: Env, start: string)
    requires DistinctNames(env.config) && Defines(env.config, start, env.network)
    ensures Defines(env.config, InitialPass(env, start).provider, env.network)
  {
    hide Blocked, Rotation;
    RotationDistinct(env.config, start, env.network);
    var names := Rotation(env.config, start, env.network);
    if env.overflow && |names| > 1 {
      FirstFitNeverBlocked(env, names, start, 0);
    }
  }

  /** A request is its initial pass followed, when failover applies, by the plan cut at its first end. */
  lemma RouteIs(env: Env, start: string)
    ensures var p := InitialPass(env, start);
            var (result, executed) := Route(env, start);
            && executed != [] && executed[0] == p
            && (!FailsOver(env, p) ==> executed == [p] && result == Outcome(env, p))
            && (FailsOver(env, p) ==> CutAtFirstEnd(env, FollowUp(env, p), ResultOf(env, p), result, executed[1..]))
  {
    hide Blocked, ResultOf, FailoverFailure, Plan, Walk, Rotation;
    var p := InitialPass(env, start);
    if FailsOver(env, p) {
      WalkCutsAtFirstEnd(env, FollowUp(env, p), ResultOf(env, p));
      assert Route(env, start).1[1..] == Walk(env, FollowUp(env, p), ResultOf(env, p)).1;
    }
  }

  /** No provider executes more than one pass of a request, and all of them define the network. */
  lemma EachProviderOnce(env: Env, start: string)
    requires DistinctNames(env.config) && Defines(env.config, start, env.network)
    ensures Distinct(Names(Route(env, start).1))
    ensures forall n :: n in Names(Route(env, start).1) ==> Defines(env.config, n, env.network)
    ensures Route(env, start).0.Returned? ==>
              Route(env, start).0.network == env.network && Route(env, start).0.provider in Names(Route(env, start).1)
  {
    hide Blocked, ResultOf, FailoverFailure, Rotation, FollowUp, Route;
    var p := InitialPass(env, start);
    InitialDefined(env, start);
    RouteIs(env, start);
    FollowUpIs(env, p);
    var executed, all := Route(env, start).1, [p] + FollowUp(env, p);
    assert executed == [p] + executed[1..];
    assert executed <= all;
    assert Names(executed) <= Names(all);
    assert Names(executed)[|executed| - 1] == executed[|executed| - 1].provider;
  }

  /** A lack of capacity is never what the caller gets to see. */
  lemma CapacityNeverSurfaces(env: Env, start: string)
    requires DistinctNames(env.config) && Defines(env.config, start, env.network)
    ensures Route(env, start).0 != Thrown(Transport.DispatchFailed(Transport.NoCapacity))
    ensures forall p :: p in Route(env, start).1 ==> !Blocked(env, p)
  {
    hide RunOf, FailoverFailure, Rotation, FollowUp, Route;
    var p := InitialPass(env, start);
    InitialDefined(env, start);
    InitialNeverBlocked(env, start);
    RouteIs(env, start);
    FollowUpIs(env, p);
    var executed := Route(env, start).1;
    assert executed == [p] + executed[1..];
    assert executed <= [p] + FollowUp(env, p);
    assert !Blocked(env, executed[|executed| - 1]);
  }

  /** When failover is on and every executed pass failed over, every provider of the network has executed. */
  lemma AllProvidersTried(env: Env, start: string)
    requires DistinctNames(env.config) && Defines(env.config, start, env.network) && env.failover
    requires forall p :: p in Route(env, start).1 ==> !Ends(env, p)
    ensures forall n :: n in Names(Route(env, start).1) <==> Defines(env.config, n, env.network)
    ensures Route(env, start).0 == Thrown(ResultOf(env, Route(env, start).1[|Route(env, start).1| - 1]))
  {
    hide Blocked, ResultOf, FailoverFailure, Rotation, FollowUp, Route, Ends;
    var p := InitialPass(env, start);
    InitialDefined(env, start);
    RouteIs(env, start);
    FollowUpIs(env, p);
    var executed := Route(env, start).1;
    assert executed == [p] + executed[1..];
    assert executed[1..] != [] ==> !Ends(env, executed[1..][|executed[1..]| - 1]);
    assert executed == [p] + FollowUp(env, p);
  }

  // -------------------------------------------------------------------- fetches

  function StartedBy(env: Env, p: Pass): int { TransportRuns.Started(RunOf(env, p)) }

  /** A pass that is refused for lack of capacity has sent nothing. */
  lemma BlockedStartsNothing(env: Env, p: Pass)
    requires Blocked(env, p)
    ensures StartedBy(env, p) == 0
  {
    var w := WorldOf(env, p);
    assert w == DispatcherWorld(env.worlds(p.index), SettingsOf(env.config, p.provider, env.network).limited, p.behavior);
    CapacityOnlyFirst(env.worlds(p.index), SettingsOf(env.config, p.provider, env.network).limited, p.behavior);
    hide WorldOf, Transport.RequestOf;
    TransportRuns.CapacityFailureStartsNothing(w, env.calls(p.provider), PolicyOf(env, p));
  }

  lemma CapacityOnlyFirst(pw: PassWorld, limited: bool, b: Behavior)
    ensures forall i, f :: DispatcherWorld(pw, limited, b).dispatch(i, f) == Transport.Refused(Transport.NoCapacity) ==> i == 0
  {
  }

  /** Of all the passes a request made, probes included, only the executed ones can have sent anything. */
  lemma {:induction false} OnlyExecutedPassesFetch(env: Env, log: seq<Pass>, p: Pass)
    requires p in log && StartedBy(env, p) != 0
    ensures p in Unblocked(env, log)
  {
    hide RunOf, StartedBy;
    assert log == log[..|log| - 1] + [log[|log| - 1]];
    if Blocked(env, p) {
      BlockedStartsNothing(env, p);
    }
    if p != log[|log| - 1] {
      OnlyExecutedPassesFetch(env, log[..|log| - 1], p);
    }
  }

  /**
   However a request is routed, a provider has at most one pass, probes and queued passes
   included, that can have sent anything.
  */
  lemma OneSendingPassPerProvider(env: Env, start: string, log: seq<Pass>, p: Pass, q: Pass)
    requires DistinctNames(env.config) && Defines(env.config, start, env.network)
    requires Route(env, start).1 == Unblocked(env, log)
    requires p in log && q in log && p.provider == q.provider && StartedBy(env, p) != 0 && StartedBy(env, q) != 0
    ensures p == q
  {
    hide Route, Unblocked, StartedBy, DistinctNames, Defines;
    EachProviderOnce(env, start);
    OnlyExecutedPassesFetch(env, log, p);
    OnlyExecutedPassesFetch(env, log, q);
    var executed := Route(env, start).1;
    var i :| 0 <= i < |executed| && executed[i] == p;
    var j :| 0 <= j < |executed| && executed[j] == q;
    assert Names(executed)[i] == Names(executed)[j];
  }

  /** The fetches a pass dispatched, whatever became of them. */
  function DispatchedBy(env: Env, p: Pass): nat { TransportRuns.Total(RunOf(env, p).attempts) }

  function TotalDispatched(env: Env, passes: seq<Pass>): nat {
    if passes == [] then 0 else DispatchedBy(env, passes[0]) + TotalDispatched(env, passes[1..])
  }

  lemma DispatchedBound(env: Env, p: Pass)
    requires PolicyOf(env, p).maxAttempts >= 1
    ensures DispatchedBy(env, p) <= 21 * PolicyOf(env, p).maxAttempts
  {
    hide WorldOf, Transport.RequestOf;
    TransportRuns.FetchBound(WorldOf(env, p), env.calls(p.provider), PolicyOf(env, p));
  }

  lemma {:induction false} SinglePassesBound(env: Env, passes: seq<Pass>)
    requires forall p :: p in passes ==> !p.retries
    ensures TotalDispatched(env, passes) <= 21 * |passes|
  {
    hide RunOf, DispatchedBy;
    if passes != [] {
      DispatchedBound(env, passes[0]);
      SinglePassesBound(env, passes[1..]);
    }
  }

  /**
   Fetches dispatched by the executed passes of a whole routed request: 21 for each attempt the selected provider's retry
   policy allows, and 21 for each further provider of the network.
   */
  lemma RequestFetchBound(env: Env, start: string)
    requires DistinctNames(env.config) && Defines(env.config, start, env.network) && PoliciesValid(env)
    ensures var p := InitialPass(env, start);
            TotalDispatched(env, Route(env, start).1)
            <= 21 *
               (PolicyOf(env, p).maxAttempts + |Rotation(env.config, p.provider, env.network)| - 1)
  {
    hide RunOf, DispatchedBy, Blocked, ResultOf, FailoverFailure, Rotation, FollowUp, Route, Ends;
    var p := InitialPass(env, start);
    InitialDefined(env, start);
    RouteIs(env, start);
    FollowUpIs(env, p);
    var executed := Route(env, start).1;
    assert executed == [p] + executed[1..];
    assert executed <= [p] + FollowUp(env, p);
    DispatchedBound(env, p);
    SinglePassesBound(env, executed[1..]);
  }
}
