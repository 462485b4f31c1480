/** What every request does, whatever the server, the dispatcher and the caller do. */
module TransportRuns {
  import opened Wrappers
  import opened Transport

  // --------------------------------------------------------------------- one fetch

  /**
   A status reaches the caller exactly when no signal fired, the reply is no redirect with
   a location, and a success also has a readable, valid body: the status of a failure is
   kept even if its body cannot be read.
  */
  lemma StatusIsKept(r: Reply, status: nat)
    ensures Classify(r) == Response(status) <==>
            r.Answer? && r.status == status && !r.aborted && !r.timedOut &&
            !(RedirectStatus(status) && r.location.Some?) && (Success(status) ==> !r.bodyFails && !r.badJson)
  {
  }

  /** A followed redirect either keeps the method or makes it GET; it is kept as section 15.4 of RFC 9110 has it. */
  lemma MethodAfterRedirect(status: nat, verb: Method)
    requires status in {301, 302, 303, 307, 308}
    ensures RedirectMethod(status, verb) in {verb, GET}
    ensures RedirectMethod(status, verb) == verb <==>
            verb == GET || status in {307, 308} || (status in {301, 302} && verb != POST)
  {
  }

  // -------------------------------------------------------------- one logical attempt

  /** Fetch `g` is the redirect of fetch `f`, which was dispatched at `index`. */
  ghost predicate Hop(w: World, origin: string, index: nat, f: Fetch, g: Fetch) {
    && w.dispatch(index, f).Ran?
    && var p := Classify(w.dispatch(index, f).reply);
    && p.Redirect?
    && var u := w.resolve(p.location, f.url);
    && u.Some? && u.value.web && u.value.origin == origin
    && g == Fetch(u.value.href, RedirectMethod(p.status, f.verb),
                  if RedirectMethod(p.status, f.verb) == GET then None else f.body)
  }

  /** Outcome `o` is what the last fetch `f` of an attempt ends with, after `seen` and `hops` redirects. */
  ghost predicate Ending(w: World, origin: string, index: nat, f: Fetch, seen: set<string>, hops: nat, o: AttemptOutcome) {
    match w.dispatch(index, f)
    case Refused(error) => o == Escaped(error)
    case Ran(reply) =>
      match Classify(reply)
      case Response(status) => o == Got(status)
      case Failure(timedOut, aborted) => o == Failed(timedOut, aborted, f.url)
      case Redirect(_, location) =>
        var u := w.resolve(location, f.url);
        && o == Failed(false, false, f.url)
        && (u.None? || !u.value.web || u.value.origin != origin || u.value.href in seen || hops >= 20)
  }

  function Urls(fetches: seq<Fetch>): set<string> { set f | f in fetches :: f.url }

  ghost predicate Distinct(fetches: seq<Fetch>) {
    forall i, j :: 0 <= i < j < |fetches| ==> fetches[i].url != fetches[j].url
  }

  /** The trace of a redirect chain that starts with `first`, having already seen `visited`. */
  ghost predicate IsChain(w: World, origin: string, index: nat, first: Fetch, visited: set<string>, hops: nat, run: AttemptRun) {
    var fs := run.fetches;
    && fs != [] && fs[0] == first && hops + |fs| <= 21
    && Distinct(fs) && (forall i :: 1 <= i < |fs| ==> fs[i].url !in visited)
    && (forall i :: 1 <= i < |fs| ==> Hop(w, origin, index + i - 1, fs[i - 1], fs[i]))
    && Ending(w, origin, index + |fs| - 1, fs[|fs| - 1], visited + Urls(fs), hops + |fs| - 1, run.outcome)
  }

  lemma {:induction false} ChainLonger(w: World, origin: string, index: nat, first: Fetch, next: Fetch, visited: set<string>,
                                       hops: nat, rest: AttemptRun)
    requires IsChain(w, origin, index + 1, next, visited + {next.url}, hops + 1, rest)
    requires first.url in visited && next.url !in visited && Hop(w, origin, index, first, next)
    ensures IsChain(w, origin, index, first, visited, hops, AttemptRun(rest.outcome, [first] + rest.fetches))
  {
    var gs, fs := rest.fetches, [first] + rest.fetches;
    forall i | 1 <= i < |fs|
      ensures fs[i].url !in visited && Hop(w, origin, index + i - 1, fs[i - 1], fs[i])
    {
      assert fs[i] == gs[i - 1];
      if i >= 2 {
        assert Hop(w, origin, index + 1 + (i - 1) - 1, gs[i - 2], gs[i - 1]);
      }
    }
    assert Distinct(fs);
    assert visited + {next.url} + Urls(gs) == visited + Urls(fs) by {
      assert gs[0] in fs && first in fs;
      assert forall f :: f in fs <==> f == first || f in gs;
    }
  }

  lemma {:induction false} AttemptFromIsChain(w: World, origin: string, index: nat, url: string, verb: Method,
                                              body: Option<string>, visited: set<string>, hops: nat)
    requires url in visited && hops <= 20
    ensures IsChain(w, origin, index, Outgoing(url, verb, body), visited, hops,
                    AttemptFrom(w, origin, index, url, verb, body, visited, hops))
    decreases 20 - hops
  {
    var fetch := Outgoing(url, verb, body);
    assert visited + Urls([fetch]) == visited;
    var sent := w.dispatch(index, fetch);
    if sent.Ran? {
      var p := Classify(sent.reply);
      if p.Redirect? {
        var to := Destination(w, origin, url, p.location, visited, hops);
        if to.Some? {
          var verb' := RedirectMethod(p.status, verb);
          var body' := if verb' == GET && verb != GET then None else body;
          AttemptFromIsChain(w, origin, index + 1, to.value, verb', body', visited + {to.value}, hops + 1);
          ChainLonger(w, origin, index, fetch, Outgoing(to.value, verb', body'), visited, hops,
                      AttemptFrom(w, origin, index + 1, to.value, verb', body', visited + {to.value}, hops + 1));
        }
      }
    }
  }

  /**
   Every logical attempt is one chain: it starts with the original request, each later fetch
   is the permitted same-origin redirect of the one before, no URL is fetched twice, there
   are at most 21 fetches, and the outcome is the last fetch's.
   */
  lemma AttemptIsChain(w: World, call: Call, index: nat)
    ensures IsChain(w, call.origin, index, Outgoing(call.url, call.verb, call.body), {call.url}, 0, Attempt(w, call, index))
    ensures 1 <= |Attempt(w, call, index).fetches| <= 21
  {
    AttemptFromIsChain(w, call.origin, index, call.url, call.verb, call.body, {call.url}, 0);
  }

  /** The converse: the world leaves an attempt no other chain. */
  lemma {:induction false} ChainIsUnique(w: World, origin: string, index: nat, first: Fetch, visited: set<string>, hops: nat,
                                         a: AttemptRun, b: AttemptRun)
    requires IsChain(w, origin, index, first, visited, hops, a) && IsChain(w, origin, index, first, visited, hops, b)
    requires first.url in visited
    ensures a == b
  {
    SameChain(w, origin, index, first, visited, hops, a, b, 0);
  }

  /** Two chains that agree up to fetch `i` agree altogether. */
  lemma {:induction false} SameChain(w: World, origin: string, index: nat, first: Fetch, visited: set<string>, hops: nat,
                                     a: AttemptRun, b: AttemptRun, i: nat)
    requires IsChain(w, origin, index, first, visited, hops, a) && IsChain(w, origin, index, first, visited, hops, b)
    requires first.url in visited && i < |a.fetches| && i < |b.fetches|
    requires a.fetches[..i + 1] == b.fetches[..i + 1]
    ensures a == b
    decreases |a.fetches| - i
  {
    hide Ending, Urls, Hop;
    var fs, gs := a.fetches, b.fetches;
    assert fs[i] == fs[..i + 1][i] == gs[..i + 1][i] == gs[i];
    if i + 1 < |fs| { ChainGoesOn(w, origin, index, visited, hops, a, i, b.outcome); }
    if i + 1 < |gs| { ChainGoesOn(w, origin, index, visited, hops, b, i, a.outcome); }
    assert |fs| == i + 1 ==> fs == fs[..i + 1];
    assert |gs| == i + 1 ==> gs == gs[..i + 1];
    assert i + 1 < |fs| <==> i + 1 < |gs|;
    if i + 1 < |fs| {
      OneHop(w, origin, index + (i + 1) - 1, fs[i], fs[i + 1], gs[i + 1]);
      assert fs[..i + 2] == fs[..i + 1] + [fs[i + 1]] && gs[..i + 2] == gs[..i + 1] + [gs[i + 1]];
      SameChain(w, origin, index, first, visited, hops, a, b, i + 1);
    } else {
      OneEnding(w, origin, index + i, fs[i], visited + Urls(fs), hops + i, a.outcome, b.outcome);
    }
  }

  lemma OneHop(w: World, origin: string, index: nat, f: Fetch, g: Fetch, h: Fetch)
    requires Hop(w, origin, index, f, g) && Hop(w, origin, index, f, h)
    ensures g == h
  {
  }

  lemma OneEnding(w: World, origin: string, index: nat, f: Fetch, seen: set<string>, hops: nat, o: AttemptOutcome, p: AttemptOutcome)
    requires Ending(w, origin, index, f, seen, hops, o) && Ending(w, origin, index, f, seen, hops, p)
    ensures o == p
  {
  }

  /** Where a chain goes on, its fetches so far are no complete chain. */
  lemma ChainGoesOn(w: World, origin: string, index: nat, visited: set<string>, hops: nat, a: AttemptRun, i: nat, o: AttemptOutcome)
    requires i + 1 < |a.fetches| && a.fetches[0].url in visited
    requires IsChain(w, origin, index, a.fetches[0], visited, hops, a)
    ensures !Ending(w, origin, index + i, a.fetches[i], visited + Urls(a.fetches[..i + 1]), hops + i, o)
  {
    var fs := a.fetches;
    assert Hop(w, origin, index + (i + 1) - 1, fs[i], fs[i + 1]);
    assert fs[0] in fs[..i + 1] && Hop(w, origin, index + i, fs[i], fs[i + 1]);
  }

  /** Once a redirect has turned the request into a GET it stays one, and carries no body. */
  lemma {:induction false} GetSticks(w: World, call: Call, index: nat, i: nat, j: nat)
    requires i <= j < |Attempt(w, call, index).fetches|
    requires Attempt(w, call, index).fetches[i].verb == GET
    ensures Attempt(w, call, index).fetches[j] == Fetch(Attempt(w, call, index).fetches[j].url, GET, None)
    decreases j - i
  {
    AttemptIsChain(w, call, index);
    var fs := Attempt(w, call, index).fetches;
    if i < j {
      GetSticks(w, call, index, i, j - 1);
      assert Hop(w, call.origin, index + j - 1, fs[j - 1], fs[j]);
    } else if j > 0 {
      assert Hop(w, call.origin, index + j - 1, fs[j - 1], fs[j]);
    }
  }

  /** A fetch carries either nothing or the caller's exact body, the latter only under the caller's own method. */
  lemma {:induction false} BodyIsTheCallers(w: World, call: Call, index: nat, j: nat)
    requires j < |Attempt(w, call, index).fetches|
    ensures var f := Attempt(w, call, index).fetches[j];
            f.body == None || (f.verb == call.verb && f.body == call.body && call.verb != GET)
    decreases j
  {
    AttemptIsChain(w, call, index);
    var fs := Attempt(w, call, index).fetches;
    if j > 0 {
      BodyIsTheCallers(w, call, index, j - 1);
      assert Hop(w, call.origin, index + j - 1, fs[j - 1], fs[j]);
    }
  }

  // ----------------------------------------------------------------- whole requests

  function Total(attempts: seq<AttemptRun>): nat {
    if attempts == [] then 0 else |attempts[0].fetches| + Total(attempts[1..])
  }

  /** The dispatches that may have sent something: all but one that was refused for lack of capacity. */
  function Started(run: RequestRun): int {
    Total(run.attempts) - if run.result == DispatchFailed(NoCapacity) then 1 else 0
  }

  /** Attempts start afresh from the caller's request and are dispatched one after the other. */
  ghost predicate Consecutive(at: nat -> AttemptRun, index: nat, rs: seq<AttemptRun>) {
    forall j :: 0 <= j < |rs| ==> rs[j] == at(index + Total(rs[..j]))
  }

  /** The attempts of a retry loop from number `attempt` on: the first one that ends it is the last. */
  ghost predicate IsRetry(at: nat -> AttemptRun, abortsWait: nat -> bool, policy: Policy, attempt: nat, index: nat, run: RequestRun) {
    var rs, n := run.attempts, |run.attempts|;
    && n >= 1
    && Consecutive(at, index, rs)
    && (forall j :: 0 <= j < n - 1 ==> Verdict(policy, abortsWait, attempt + j, rs[j].outcome, index) == None)
    && Verdict(policy, abortsWait, attempt + n - 1, rs[n - 1].outcome, index + Total(rs)) == Some(run.result)
  }

  lemma ConsecutiveLonger(at: nat -> AttemptRun, index: nat, ts: seq<AttemptRun>)
    requires Consecutive(at, index + |at(index).fetches|, ts)
    ensures Consecutive(at, index, [at(index)] + ts)
    ensures Total([at(index)] + ts) == |at(index).fetches| + Total(ts)
  {
    var rs := [at(index)] + ts;
    assert rs[1..] == ts;
    forall j | 0 <= j < |rs| ensures rs[j] == at(index + Total(rs[..j])) {
      if j > 0 {
        assert rs[..j][1..] == ts[..j - 1];
      }
    }
  }

  /** One more retryable attempt in front. */
  lemma {:induction false} RetryLonger(at: nat -> AttemptRun, abortsWait: nat -> bool, policy: Policy, attempt: nat, index: nat,
                                       rest: RequestRun)
    requires Verdict(policy, abortsWait, attempt, at(index).outcome, index) == None
    requires IsRetry(at, abortsWait, policy, attempt + 1, index + |at(index).fetches|, rest)
    ensures IsRetry(at, abortsWait, policy, attempt, index, RequestRun(rest.result, [at(index)] + rest.attempts))
  {
    hide Total, Consecutive;
    var ts := rest.attempts;
    var rs, n := [at(index)] + ts, |ts|;
    ConsecutiveLonger(at, index, ts);
    forall j | 0 <= j < n
      ensures Verdict(policy, abortsWait, attempt + j, rs[j].outcome, index) == None
    {
      if j > 0 {
        assert attempt + 1 + (j - 1) == attempt + j;
        assert Verdict(policy, abortsWait, attempt + 1 + (j - 1), ts[j - 1].outcome, index + |at(index).fetches|) == None;
      }
    }
    assert attempt + 1 + n - 1 == attempt + (n + 1) - 1;
  }

  lemma RetryOnce(at: nat -> AttemptRun, abortsWait: nat -> bool, policy: Policy, attempt: nat, index: nat, result: RequestResult)
    requires Verdict(policy, abortsWait, attempt, at(index).outcome, index + |at(index).fetches|) == Some(result)
    ensures IsRetry(at, abortsWait, policy, attempt, index, RequestRun(result, [at(index)]))
  {
  }

  lemma {:induction false} RetryFromIsRetry(at: nat -> AttemptRun, abortsWait: nat -> bool, policy: Policy, attempt: nat, index: nat)
    ensures IsRetry(at, abortsWait, policy, attempt, index, RetryFrom(at, abortsWait, policy, attempt, index))
    decreases policy.maxAttempts - attempt
  {
    hide IsRetry;
    var index' := index + |at(index).fetches|;
    match Verdict(policy, abortsWait, attempt, at(index).outcome, index') {
      case Some(result) =>
        RetryOnce(at, abortsWait, policy, attempt, index, result);
      case None =>
        RetryFromIsRetry(at, abortsWait, policy, attempt + 1, index');
        RetryLonger(at, abortsWait, policy, attempt, index, RetryFrom(at, abortsWait, policy, attempt + 1, index'));
    }
  }

  /** What any request returns or throws, in terms of its attempts. */
  ghost predicate IsRequest(w: World, call: Call, policy: Policy, run: RequestRun) {
    IsRetry(Attempts(w, call), w.abortsWait, policy, 0, 0, run)
  }

  lemma RequestIsRequest(w: World, call: Call, policy: Policy)
    ensures IsRequest(w, call, policy, RequestOf(w, call, policy))
  {
    RetryFromIsRetry(Attempts(w, call), w.abortsWait, policy, 0, 0);
  }

  /** What is retried: a listed status or a network failure that is no abort, while attempts are left and nobody aborts the wait. */
  lemma RetriedExactly(policy: Policy, abortsWait: nat -> bool, attempt: nat, o: AttemptOutcome, dispatched: nat)
    ensures Verdict(policy, abortsWait, attempt, o, dispatched) == None <==>
            policy.enabled && attempt + 1 < policy.maxAttempts && !abortsWait(attempt) &&
            match o
            case Escaped(_) => false
            case Failed(timedOut, aborted, _) => policy.onNetworkError && (aborted ==> timedOut)
            case Got(status) => (status == 404 && policy.on404) || (status == 429 && policy.on429) || (status >= 500 && policy.on5xx)
  {
  }

  /** Without settings there is one attempt; merely enabled, three, for 429, server errors and network failures. */
  lemma RetryDefaults(enabled: bool)
    ensures NormalizeRetry(None) == Some(Policy(false, 1, false, false, false, false))
    ensures NormalizeRetry(Some(RetryOptions(Some(enabled), None, None, None, None, None, None, None)))
         == Some(if enabled then Policy(true, 3, false, true, true, true) else Policy(false, 1, false, false, false, false))
  {
  }

  lemma {:induction false} TotalBounded(rs: seq<AttemptRun>)
    requires forall j :: 0 <= j < |rs| ==> 1 <= |rs[j].fetches| <= 21
    ensures |rs| <= Total(rs) <= 21 * |rs|
  {
    if rs != [] {
      TotalBounded(rs[1..]);
    }
  }

  /** At most 21 dispatched fetches for each of at most maxAttempts logical attempts. */
  lemma FetchBound(w: World, call: Call, policy: Policy)
    requires policy.maxAttempts >= 1
    ensures var run := RequestOf(w, call, policy);
            && 1 <= |run.attempts| <= policy.maxAttempts
            && Total(run.attempts) <= 21 * policy.maxAttempts
  {
    RequestIsRequest(w, call, policy);
    var rs := RequestOf(w, call, policy).attempts;
    forall j | 0 <= j < |rs| ensures 1 <= |rs[j].fetches| <= 21 {
      AttemptIsChain(w, call, 0 + Total(rs[..j]));
    }
    TotalBounded(rs);
    var n := |rs|;
    if n > 1 { assert Verdict(policy, w.abortsWait, 0 + (n - 2), rs[n - 2].outcome, 0) == None; }
  }

  /** Every URL a request fetches is its own or a destination of the same origin. */
  lemma SameOrigin(w: World, call: Call, policy: Policy, a: nat, i: nat)
    requires var rs := RequestOf(w, call, policy).attempts; a < |rs| && i < |rs[a].fetches|
    ensures var f := RequestOf(w, call, policy).attempts[a].fetches[i];
            f.url == call.url ||
            exists location, from :: w.resolve(location, from) == Some(Url(f.url, call.origin, true))
  {
    RequestIsRequest(w, call, policy);
    var rs := RequestOf(w, call, policy).attempts;
    var index := 0 + Total(rs[..a]);
    AttemptIsChain(w, call, index);
    var fs := rs[a].fetches;
    if i > 0 {
      assert Hop(w, call.origin, index + i - 1, fs[i - 1], fs[i]);
      var p := Classify(w.dispatch(index + i - 1, fs[i - 1]).reply);
      assert w.resolve(p.location, fs[i - 1].url) == Some(Url(fs[i].url, call.origin, true));
    }
  }

  /** With retries disabled there is one logical attempt. */
  lemma DisabledMeansOneAttempt(w: World, call: Call, user: Option<RetryOptions>)
    requires NormalizeRetry(user).Some? && !NormalizeRetry(user).value.enabled
    ensures |RequestOf(w, call, NormalizeRetry(user).value).attempts| == 1
  {
  }

  /** An error that escapes from an attempt is the dispatcher's answer to its last dispatch. */
  lemma EscapeIsLastDispatch(w: World, call: Call, index: nat, error: DispatchError)
    requires Attempt(w, call, index).outcome == Escaped(error)
    ensures var fs := Attempt(w, call, index).fetches;
            && fs[0] == Outgoing(call.url, call.verb, call.body)
            && w.dispatch(index + |fs| - 1, fs[|fs| - 1]) == Refused(error)
  {
    AttemptIsChain(w, call, index);
    hide Attempt, AttemptFrom, Hop, Distinct, Urls;
  }

  /** A refusal of the first dispatch is the result of the whole request. */
  lemma RefusedAtOnce(w: World, call: Call, policy: Policy, error: DispatchError)
    requires w.dispatch(0, Outgoing(call.url, call.verb, call.body)) == Refused(error)
    ensures RequestOf(w, call, policy).result == DispatchFailed(error)
  {
    var run := Attempt(w, call, 0);
    assert run == AttemptRun(Escaped(error), [Outgoing(call.url, call.verb, call.body)]);
    assert Attempts(w, call)(0) == run;
    hide Attempts, AttemptFrom, Attempt;
    assert Verdict(policy, w.abortsWait, 0, Escaped(error), 1) == Some(DispatchFailed(error));
  }

  /** The first fetch of a request is the caller's. */
  lemma FirstFetch(w: World, call: Call, policy: Policy)
    ensures var rs := RequestOf(w, call, policy).attempts;
            rs != [] && rs[0].fetches != [] && rs[0].fetches[0] == Outgoing(call.url, call.verb, call.body)
  {
    RequestIsRequest(w, call, policy);
    hide RequestOf, Attempt, AttemptFrom, IsRetry;
    var at, run := Attempts(w, call), RequestOf(w, call, policy);
    StartsAtZero(at, w.abortsWait, policy, run);
    AttemptIsChain(w, call, 0);
  }

  lemma StartsAtZero(at: nat -> AttemptRun, abortsWait: nat -> bool, policy: Policy, run: RequestRun)
    requires IsRetry(at, abortsWait, policy, 0, 0, run)
    ensures run.attempts != [] && run.attempts[0] == at(0)
  {
    var rs := run.attempts;
    assert rs[..0] == [] && rs[0] == at(0 + Total(rs[..0]));
  }

  /** A policy that allows one attempt gets one. */
  lemma OneAttemptOnly(w: World, call: Call, policy: Policy)
    requires policy.maxAttempts <= 1
    ensures |RequestOf(w, call, policy).attempts| == 1
  {
    hide Attempts;
  }

  lemma {:induction false} FirstOfMany(at: nat -> AttemptRun, index: nat, rs: seq<AttemptRun>)
    requires rs != [] && Consecutive(at, index, rs)
    ensures |rs| == 1 || Total(rs[..|rs| - 1]) >= |at(index).fetches|
  {
  }

  /**
   If the dispatcher can run out of capacity only on the first dispatch, a request that ends
   for lack of capacity has started no fetch at all.
   */
  lemma CapacityFailureStartsNothing(w: World, call: Call, policy: Policy)
    requires forall i, f :: w.dispatch(i, f) == Refused(NoCapacity) ==> i == 0
    ensures var run := RequestOf(w, call, policy);
            run.result == DispatchFailed(NoCapacity) ==>
              Started(run) == 0 && w.dispatch(0, Outgoing(call.url, call.verb, call.body)) == Refused(NoCapacity)
  {
    var at, run := Attempts(w, call), RequestOf(w, call, policy);
    RequestIsRequest(w, call, policy);
    hide RequestOf, IsRetry, Attempt, AttemptFrom, Total, Consecutive;
    if run.result == DispatchFailed(NoCapacity) {
      var rs := run.attempts;
      var index := LastEscaped(at, w.abortsWait, policy, run, NoCapacity);
      EscapeIsLastDispatch(w, call, index, NoCapacity);
      AttemptIsChain(w, call, index);
      AttemptIsChain(w, call, 0);
      FirstOfMany(at, 0, rs);
      OneAttempt(at, rs, index);
    }
  }

  /** A dispatch failure is the escape of the last attempt, which starts at the returned index. */
  lemma LastEscaped(at: nat -> AttemptRun, abortsWait: nat -> bool, policy: Policy, run: RequestRun, error: DispatchError)
    returns (index: nat)
    requires IsRetry(at, abortsWait, policy, 0, 0, run) && run.result == DispatchFailed(error)
    ensures run.attempts != [] && Consecutive(at, 0, run.attempts)
    ensures index == Total(run.attempts[..|run.attempts| - 1]) && at(index).outcome == Escaped(error)
  {
    hide Total;
    var rs, n := run.attempts, |run.attempts|;
    index := Total(rs[..n - 1]);
    assert rs[n - 1] == at(0 + index);
  }

  lemma OneAttempt(at: nat -> AttemptRun, rs: seq<AttemptRun>, index: nat)
    requires |rs| == 1 && Consecutive(at, 0, rs) && index == Total(rs[..|rs| - 1])
    ensures index == 0 && rs == [at(0)] && Total(rs) == |at(0).fetches|
  {
    assert rs[..0] == [] && rs == [rs[0]] && rs[1..] == [];
    assert rs[0] == at(0 + Total(rs[..0]));
  }
}
