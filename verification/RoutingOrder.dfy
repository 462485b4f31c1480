/** The order in which a request visits its providers, in terms of their places in the configuration. */
module RoutingOrder {
  import opened Wrappers
  import opened Routing
  import opened RoutingRuns
  import Transport
  import TransportRuns

  // ---------------------------------------------------------------- the rotation

  /** The names stand in strictly rising order of rank. */
  predicate Rising(names: seq<string>, rank: string -> int) {
    forall x, y :: 0 <= x < y < |names| ==> rank(names[x]) < rank(names[y])
  }

  /** The place of the provider called `name` in the configuration. */
  function Place(config: seq<Provider>, name: string): (i: nat)
    ensures i <= |config| && (i < |config| ==> config[i].name == name)
  {
    if config == [] || config[0].name == name then 0 else 1 + Place(config[1..], name)
  }

  /** How many places after `start` the provider stands, counting on from the end to the beginning. */
  function PlacesAfter(config: seq<Provider>, start: string, name: string): int {
    if config == [] then 0 else (Place(config, name) - Place(config, start)) % |config|
  }

  function InConfig(config: seq<Provider>): string -> int { (name: string) => Place(config, name) }

  function After(config: seq<Provider>, start: string): string -> int { (name: string) => PlacesAfter(config, start, name) }

  lemma RisingCons(head: string, rest: seq<string>, rank: string -> int)
    requires Rising(rest, rank) && forall n :: n in rest ==> rank(head) < rank(n)
    ensures Rising([head] + rest, rank)
  {
    forall y | 0 <= y < |rest| ensures rank(head) < rank(rest[y]) {
      assert rest[y] in rest;
    }
  }

  lemma RisingShift(names: seq<string>, rank: string -> int, shifted: string -> int)
    requires Rising(names, rank) && forall n :: n in names ==> shifted(n) == 1 + rank(n)
    ensures Rising(names, shifted)
  {
    forall x | 0 <= x < |names| ensures shifted(names[x]) == 1 + rank(names[x]) {
      assert names[x] in names;
    }
  }

  lemma NotInTail(config: seq<Provider>, network: string, name: string)
    requires DistinctNames(config) && config != [] && name in Supporting(config[1..], network)
    ensures name != config[0].name && Place(config, name) == 1 + Place(config[1..], name)
  {
    SupportingNames(config[1..], network);
    assert forall p :: p in config[1..] ==> p.name != config[0].name;
  }

  lemma {:induction false} SupportingInOrder(config: seq<Provider>, network: string)
    requires DistinctNames(config)
    ensures Rising(Supporting(config, network), InConfig(config))
    ensures forall n :: n in Supporting(config, network) ==> Place(config, n) < |config|
  {
    hide Rising;
    if config == [] {
      assert Rising([], InConfig(config)) by { NothingRises(InConfig(config)); }
    } else {
      var head, rest := config[0].name, Supporting(config[1..], network);
      SupportingInOrder(config[1..], network);
      forall n | n in rest ensures Place(config, n) == 1 + Place(config[1..], n) {
        NotInTail(config, network, n);
      }
      RisingShift(rest, InConfig(config[1..]), InConfig(config));
      RisingCons(head, rest, InConfig(config));
      assert [] + rest == rest;
    }
  }

  lemma NothingRises(rank: string -> int)
    ensures Rising([], rank)
  {
  }

  /** A turned list rises by distance from its new head. */
  lemma TurnRises(all: seq<string>, i: nat, place: string -> int, after: string -> int, n: int)
    requires i < |all| && Rising(all, place)
    requires forall m :: m in all ==>
               0 <= place(m) < n && after(m) == place(m) - place(all[i]) + if place(all[i]) <= place(m) then 0 else n
    ensures Rising(all[i..] + all[..i], after)
  {
    var r, k := all[i..] + all[..i], |all| - i;
    forall x | 0 <= x < |r|
      ensures r[x] == (if x < k then all[i + x] else all[x - k]) && r[x] in all
    {
    }
  }

  lemma PlacesAfterIs(config: seq<Provider>, start: string, name: string)
    requires Place(config, start) < |config| && Place(config, name) < |config|
    ensures PlacesAfter(config, start, name) ==
            Place(config, name) - Place(config, start) + if Place(config, start) <= Place(config, name) then 0 else |config|
  {
    hide Place;
    WrapOnce(Place(config, name) - Place(config, start), |config|);
  }

  lemma WrapOnce(d: int, n: int)
    requires -n < d < n
    ensures d % n == d + if d >= 0 then 0 else n
  {
    var q, r := d / n, d % n;
    assert d == n * q + r && 0 <= r < n;
    assert q >= 1 ==> n * q >= n;
    assert q <= -2 ==> n * q <= n * -2;
  }

  /**
   The rotation visits the providers of the network by their distance after the requested
   one; if that one does not define the network, in the order of the configuration.
  */
  lemma RotationOrder(config: seq<Provider>, start: string, network: string)
    requires DistinctNames(config)
    ensures var r := Rotation(config, start, network);
            if Defines(config, start, network) then Rising(r, After(config, start)) else Rising(r, InConfig(config))
  {
    var all := Supporting(config, network);
    SupportingNames(config, network);
    SupportingInOrder(config, network);
    hide Supporting, Defines, DistinctNames, Place, PlacesAfter, Rising, InConfig, After;
    var i := IndexOf(all, start);
    if i < |all| { TurnedOrder(config, all, i); }
  }

  lemma TurnedOrder(config: seq<Provider>, all: seq<string>, i: nat)
    requires i < |all| && Rising(all, InConfig(config)) && forall n :: n in all ==> Place(config, n) < |config|
    ensures Rising(all[i..] + all[..i], After(config, all[i]))
  {
    hide Place, PlacesAfter, Rising;
    forall m | m in all
      ensures After(config, all[i])(m) ==
              Place(config, m) - Place(config, all[i]) + if Place(config, all[i]) <= Place(config, m) then 0 else |config|
    {
      PlacesAfterIs(config, all[i], m);
    }
    TurnRises(all, i, InConfig(config), After(config, all[i]), |config|);
  }

  lemma {:induction false} UntriedRises(names: seq<string>, attempted: set<string>, rank: string -> int)
    requires Rising(names, rank)
    ensures Rising(Untried(names, attempted), rank)
    ensures forall n :: n in Untried(names, attempted) <==> n in names && n !in attempted
  {
    hide Rising;
    if names != [] {
      var rest := Untried(names[1..], attempted);
      RisingTail(names, rank);
      UntriedRises(names[1..], attempted, rank);
      assert names == [names[0]] + names[1..];
      assert forall n :: n in names <==> n == names[0] || n in names[1..];
      RisingCons(names[0], rest, rank);
      assert [] + rest == rest;
    } else {
      NothingRises(rank);
    }
  }

  lemma RisingTail(names: seq<string>, rank: string -> int)
    requires Rising(names, rank) && names != []
    ensures Rising(names[1..], rank) && forall n :: n in names[1..] ==> rank(names[0]) < rank(n)
  {
  }

  // -------------------------------------------------------------------- the plan

  /** The probe of the untried provider number `j` finds no immediate capacity. */
  predicate Refused(env: Env, untried: seq<string>, index: nat, j: nat)
    requires j < |untried|
  {
    env.overflow && LimiterRefuses(env, Pass(index + j, untried[j], Overflow, false))
  }

  predicate Increasing(ns: seq<nat>) { forall x, y :: 0 <= x < y < |ns| ==> ns[x] < ns[y] }

  predicate Below(ns: seq<nat>, n: nat) { forall x :: 0 <= x < |ns| ==> ns[x] < n }

  /** `ns` are the numbers, in order and from `j` on, of the untried providers whose probe is refused, or is not. */
  ghost predicate AreNumbers(env: Env, untried: seq<string>, index: nat, j: nat, refused: bool, ns: seq<nat>) {
    && Increasing(ns) && Below(ns, |untried|)
    && forall n: nat :: n in ns <==> j <= n < |untried| && Refused(env, untried, index, n) == refused
  }

  function Numbers(env: Env, untried: seq<string>, index: nat, j: nat, refused: bool): (ns: seq<nat>)
    requires j <= |untried|
    ensures AreNumbers(env, untried, index, j, refused, ns)
    decreases |untried| - j
  {
    hide Refused, AreNumbers;
    if j == |untried| then
      NoNumbers(env, untried, index, refused);
      []
    else
      var rest := Numbers(env, untried, index, j + 1, refused);
      ConsNumbers(env, untried, index, j, refused, rest);
      if Refused(env, untried, index, j) == refused then [j] + rest else rest
  }

  lemma NoNumbers(env: Env, untried: seq<string>, index: nat, refused: bool)
    ensures AreNumbers(env, untried, index, |untried|, refused, [])
  {
  }

  lemma ConsNumbers(env: Env, untried: seq<string>, index: nat, j: nat, refused: bool, rest: seq<nat>)
    requires j < |untried| && AreNumbers(env, untried, index, j + 1, refused, rest)
    ensures AreNumbers(env, untried, index, j, refused, if Refused(env, untried, index, j) == refused then [j] + rest else rest)
  {
    hide Refused;
    forall x | 0 <= x < |rest| ensures rest[x] >= j + 1 {
      assert rest[x] in rest;
    }
  }

  /** The pass that probes the untried provider number `j`. */
  function FirstPass(env: Env, untried: seq<string>, index: nat, j: nat): Pass
    requires j < |untried|
  {
    Pass(index + j, untried[j], if env.overflow then Overflow else Queue, false)
  }

  lemma ProbeIs(env: Env, untried: seq<string>, index: nat, j: nat)
    requires j < |untried|
    ensures Probe(env, untried[j], index + j) == FirstPass(env, untried, index, j)
    ensures Blocked(env, FirstPass(env, untried, index, j)) <==> Refused(env, untried, index, j)
  {
    hide Blocked;
    BlockedExactly(env, FirstPass(env, untried, index, j));
  }

  ghost predicate FirstPasses(env: Env, untried: seq<string>, index: nat, ns: seq<nat>, passes: seq<Pass>) {
    && Below(ns, |untried|) && |passes| == |ns|
    && forall i :: 0 <= i < |ns| ==> passes[i] == FirstPass(env, untried, index, ns[i])
  }

  ghost predicate NamesAt(untried: seq<string>, ns: seq<nat>, names: seq<string>) {
    Below(ns, |untried|) && |names| == |ns| && forall i :: 0 <= i < |ns| ==> names[i] == untried[ns[i]]
  }

  lemma OneMorePass(env: Env, untried: seq<string>, index: nat, j: nat, ns: seq<nat>, passes: seq<Pass>)
    requires j < |untried| && FirstPasses(env, untried, index, ns, passes)
    ensures FirstPasses(env, untried, index, [j] + ns, [FirstPass(env, untried, index, j)] + passes)
    ensures FirstPasses(env, untried, index, ns, [] + passes)
  {
    hide FirstPass;
    assert [] + passes == passes;
  }

  lemma OneMoreName(untried: seq<string>, j: nat, ns: seq<nat>, names: seq<string>)
    requires j < |untried| && NamesAt(untried, ns, names)
    ensures NamesAt(untried, [j] + ns, [untried[j]] + names)
    ensures NamesAt(untried, ns, [] + names)
  {
    assert [] + names == names;
  }

  lemma {:induction false} SplitByProbe(env: Env, untried: seq<string>, index: nat, j: nat)
    requires j <= |untried|
    ensures FirstPasses(env, untried, index, Numbers(env, untried, index, j, false), Free(env, untried[j..], index + j))
    ensures NamesAt(untried, Numbers(env, untried, index, j, true), BlockedNames(env, untried[j..], index + j))
    decreases |untried| - j
  {
    hide Blocked, Refused, FirstPasses, NamesAt, FirstPass, Probe, AreNumbers;
    if j < |untried| {
      SplitByProbe(env, untried, index, j + 1);
      ProbeIs(env, untried, index, j);
      assert untried[j..][0] == untried[j] && untried[j..][1..] == untried[j + 1..];
      OneMorePass(env, untried, index, j, Numbers(env, untried, index, j + 1, false), Free(env, untried[j + 1..], index + j + 1));
      OneMoreName(untried, j, Numbers(env, untried, index, j + 1, true), BlockedNames(env, untried[j + 1..], index + j + 1));
    } else {
      NothingAt(env, untried, index);
    }
  }

  lemma NothingAt(env: Env, untried: seq<string>, index: nat)
    ensures FirstPasses(env, untried, index, [], []) && NamesAt(untried, [], [])
  {
  }

  lemma {:induction false} QueuedLength(names: seq<string>, index: nat)
    ensures |Queued(names, index)| == |names|
    decreases |names|
  {
    if names != [] { QueuedLength(names[1..], index + 1); }
  }

  lemma {:induction false} QueuedAt(names: seq<string>, index: nat, i: nat)
    requires i < |names| == |Queued(names, index)|
    ensures Queued(names, index)[i] == Pass(index + i, names[i], Queue, false)
    decreases i
  {
    if i > 0 {
      QueuedLength(names[1..], index + 1);
      QueuedAt(names[1..], index + 1, i - 1);
    }
  }

  /**
   Failover's plan, pass by pass: the probes that are not refused, in the order of the
   untried providers and numbered as they are made, then one queued pass for each refused
   provider, in the same order. `room` and `blocked` are the numbers of the two kinds.
  */
  ghost predicate PlanOf(env: Env, untried: seq<string>, index: nat, plan: seq<Pass>, room: seq<nat>, blocked: seq<nat>) {
    && AreNumbers(env, untried, index, 0, false, room) && AreNumbers(env, untried, index, 0, true, blocked)
    && |plan| == |room| + |blocked|
    && (forall i :: 0 <= i < |room| ==>
          plan[i] == Pass(index + room[i], untried[room[i]], if env.overflow then Overflow else Queue, false))
    && (forall i :: 0 <= i < |blocked| ==>
          plan[|room| + i] == Pass(index + |untried| + i, untried[blocked[i]], Queue, false))
  }

  lemma PlanIs(env: Env, untried: seq<string>, index: nat)
    ensures PlanOf(env, untried, index, Plan(env, untried, [], index),
                   Numbers(env, untried, index, 0, false), Numbers(env, untried, index, 0, true))
  {
    hide Numbers, Free, BlockedNames, Queued, FirstPasses, NamesAt, PlanOf, AreNumbers;
    assert untried[0..] == untried;
    SplitByProbe(env, untried, index, 0);
    var later := BlockedNames(env, untried, index);
    assert [] + later == later;
    QueuedLength(later, index + |untried|);
    forall i | 0 <= i < |later|
      ensures Queued(later, index + |untried|)[i] == Pass(index + |untried| + i, later[i], Queue, false)
    {
      QueuedAt(later, index + |untried|, i);
    }
    JoinPlan(env, untried, index, Free(env, untried, index), later, Queued(later, index + |untried|),
             Numbers(env, untried, index, 0, false), Numbers(env, untried, index, 0, true));
  }

  lemma JoinPlan(env: Env, untried: seq<string>, index: nat, first: seq<Pass>, later: seq<string>, queued: seq<Pass>,
                 room: seq<nat>, blocked: seq<nat>)
    requires AreNumbers(env, untried, index, 0, false, room) && AreNumbers(env, untried, index, 0, true, blocked)
    requires FirstPasses(env, untried, index, room, first) && NamesAt(untried, blocked, later)
    requires |queued| == |later|
    requires forall i :: 0 <= i < |later| ==> queued[i] == Pass(index + |untried| + i, later[i], Queue, false)
    ensures PlanOf(env, untried, index, first + queued, room, blocked)
  {
    hide Refused;
  }

  /** After a failure every other provider of the network is planned for, by distance after the failed one. */
  lemma FailoverVisitsByPlace(env: Env, p: Pass)
    requires DistinctNames(env.config) && Defines(env.config, p.provider, env.network)
    ensures var untried := Untried(Rotation(env.config, p.provider, env.network), {p.provider});
            && Rising(untried, After(env.config, p.provider))
            && (forall n :: n in untried <==> Defines(env.config, n, env.network) && n != p.provider)
            && PlanOf(env, untried, p.index + 1, FollowUp(env, p),
                      Numbers(env, untried, p.index + 1, 0, false), Numbers(env, untried, p.index + 1, 0, true))
  {
    hide Rotation, Untried, PlanOf, Defines, DistinctNames, Rising, Plan, Numbers, AreNumbers;
    var names := Rotation(env.config, p.provider, env.network);
    RotationDistinct(env.config, p.provider, env.network);
    RotationOrder(env.config, p.provider, env.network);
    UntriedRises(names, {p.provider}, After(env.config, p.provider));
    PlanIs(env, Untried(names, {p.provider}), p.index + 1);
  }

  // --------------------------------------------------------------- the first pass

  /** The probe of preemptive selection for the provider number `k` of the rotation. */
  function Preemptive(names: seq<string>, k: nat): Pass
    requires k < |names|
  {
    Pass(k, names[k], Overflow, true)
  }

  /**
   With overflow switching and more than one provider, the selected pass is the probe of the
   first provider in rotation whose limiter does not refuse it, or a queued pass on the
   requested provider when every limiter does; otherwise it queues there at once.
  */
  lemma InitialPassIs(env: Env, start: string, k: nat)
    requires var names := Rotation(env.config, start, env.network);
             && k <= |names| && (forall i :: 0 <= i < k ==> LimiterRefuses(env, Preemptive(names, i)))
             && (k < |names| ==> !LimiterRefuses(env, Preemptive(names, k)))
    ensures var names := Rotation(env.config, start, env.network);
            InitialPass(env, start) ==
            if !env.overflow || |names| <= 1 then Pass(0, start, Queue, true)
            else if k < |names| then Pass(k, names[k], Overflow, true)
            else Pass(k, start, Queue, true)
  {
    hide Rotation, LimiterRefuses, Blocked;
    var names := Rotation(env.config, start, env.network);
    forall i | 0 <= i < |names|
      ensures Blocked(env, Pass(0 + i, names[i], Overflow, true)) <==> LimiterRefuses(env, Preemptive(names, i))
    {
      BlockedExactly(env, Preemptive(names, i));
    }
    FirstFitIsFirst(env, names, start, 0, k);
  }

  // ------------------------------------------------------- what a pass is made of

  /** A provider runs under its own settings for the network. */
  lemma SettingsAreOwn(config: seq<Provider>, p: Provider, network: string)
    requires DistinctNames(config) && p in config && network in p.networks
    ensures SettingsOf(config, p.name, network) == p.networks[network]
  {
    if config[0] != p {
      assert config[0].name != p.name;
      SettingsAreOwn(config[1..], p, network);
    }
  }

  /**
   A pass first sends the provider's own request. The selected pass retries by that
   provider's policy; every other executed pass makes a single attempt.
  */
  lemma PassesAsConfigured(env: Env, start: string, p: Pass)
    requires p in Route(env, start).1
    ensures var rs, call := RunOf(env, p).attempts, env.calls(p.provider);
            && rs != [] && rs[0].fetches != []
            && rs[0].fetches[0] == Transport.Fetch(call.url, call.verb, if call.verb == Transport.GET then None else call.body)
            && (p != InitialPass(env, start) ==> |rs| == 1)
    ensures p == InitialPass(env, start) ==> PolicyOf(env, p) == SettingsOf(env.config, p.provider, env.network).retry
  {
    hide RunOf, Blocked, InitialPass, Route, FollowUp, SettingsOf;
    FirstFetchIsOwn(env, p);
    InitialRetries(env, start);
    ExecutedPass(env, start, p);
    if p != InitialPass(env, start) {
      NoRetryAfter(env, InitialPass(env, start), p);
      SingleAttempt(env, p);
    }
  }

  lemma ExecutedPass(env: Env, start: string, p: Pass)
    requires p in Route(env, start).1
    ensures p == InitialPass(env, start) || p in FollowUp(env, InitialPass(env, start))
  {
    hide Blocked, ResultOf, FailoverFailure, Ends, Outcome, FollowUp, Route, InitialPass;
    RouteIs(env, start);
    var first, executed := InitialPass(env, start), Route(env, start).1;
    assert executed == [first] + executed[1..];
  }

  lemma NoRetryAfter(env: Env, first: Pass, p: Pass)
    requires p in FollowUp(env, first)
    ensures !p.retries
  {
    hide Blocked, Plan, Rotation, Names, WithRoom, BlockedNames;
    PlanIsStablePartition(env, Untried(Rotation(env.config, first.provider, env.network), {first.provider}), first.index + 1);
  }

  lemma InitialRetries(env: Env, start: string)
    ensures InitialPass(env, start).retries
  {
    hide Rotation, Blocked;
    FirstFitNeverBlocked(env, Rotation(env.config, start, env.network), start, 0);
  }

  lemma FirstFetchIsOwn(env: Env, p: Pass)
    ensures var rs, call := RunOf(env, p).attempts, env.calls(p.provider);
            rs != [] && rs[0].fetches != [] && rs[0].fetches[0] == Transport.Outgoing(call.url, call.verb, call.body)
  {
    var w, call := WorldOf(env, p), env.calls(p.provider);
    TransportRuns.FirstFetch(w, call, PolicyOf(env, p));
  }

  lemma SingleAttempt(env: Env, p: Pass)
    requires !p.retries
    ensures |RunOf(env, p).attempts| == 1
  {
    TransportRuns.OneAttemptOnly(WorldOf(env, p), env.calls(p.provider), PolicyOf(env, p));
  }

  /** What a provider's limiter and the network answer is what the transport gets: no dispatch is answered otherwise. */
  lemma DispatchedAsAnswered(env: Env, p: Pass, i: nat, f: Transport.Fetch)
    ensures var pw := env.worlds(p.index);
            var limited := SettingsOf(env.config, p.provider, env.network).limited;
            WorldOf(env, p).dispatch(i, f) ==
            match pw.answers(i, f)
            case Replies(reply) =>
              if i == 0 && limited && p.behavior == Overflow && pw.full then Transport.Refused(Transport.NoCapacity)
              else Transport.Ran(reply)
            case Aborts =>
              if limited then Transport.Refused(Transport.AbortedInDispatch) else Transport.Ran(Transport.Throws(true, false))
            case LimiterFails =>
              if limited then Transport.Refused(Transport.OtherError) else Transport.Ran(Transport.Throws(false, false))
    ensures WorldOf(env, p).resolve == env.worlds(p.index).resolve && WorldOf(env, p).abortsWait == env.worlds(p.index).abortsWait
  {
  }
}
