/** What a request returns or throws, in terms of its attempts, its policy and its last fetch. */
module TransportResults {
  import opened Wrappers
  import opened Transport
  import opened TransportRuns

  // ------------------------------------------------------------------ one fetch

  /** What is made of a reply: a redirect to follow, a status to report, or a failure with its two flags. */
  lemma ReplyIs(r: Reply)
    ensures var answered := r.Answer? && !r.aborted && !r.timedOut;
            var redirects := answered && r.location.Some? && r.status in {301, 302, 303, 307, 308};
            var broken := answered && 200 <= r.status <= 299 && (r.bodyFails || r.badJson);
            Classify(r) ==
            if redirects then Redirect(r.status, r.location.value)
            else if broken then Failure(false, false)
            else if answered then Response(r.status)
            else Failure(r.timedOut, r.aborted)
  {
  }

  // ----------------------------------------------------------------- one request

  /** Attempt number `n` (the first is 1) calls for another one: a status or a failure the policy lists, with attempts left. */
  predicate CallsForMore(policy: Policy, n: nat, o: AttemptOutcome) {
    policy.enabled && n < policy.maxAttempts &&
    match o
    case Escaped(_) => false
    case Got(status) =>
      (policy.on404 && status == 404) || (policy.on429 && status == 429) || (policy.on5xx && status >= 500)
    case Failed(timedOut, aborted, _) => policy.onNetworkError && (timedOut || !aborted)
  }

  /**
   The result of a request, whatever the world. Every attempt but the last calls for another
   one, after a wait that nobody aborts. The last one's outcome is the result: a status of
   200 to 299 is returned; any other is thrown, as is a failure, with the URL of the last
   fetch and the number of fetches dispatched; but an abort is thrown as such, be it the
   caller's during the fetch or during the wait for one more attempt.
  */
  ghost predicate ResultOf(abortsWait: nat -> bool, policy: Policy, rs: seq<AttemptRun>, result: RequestResult) {
    && rs != []
    && (forall j :: 0 <= j < |rs| - 1 ==> CallsForMore(policy, j + 1, rs[j].outcome) && !abortsWait(j))
    && var last, n := rs[|rs| - 1], |rs|;
    && last.fetches != []
    && var waitAborted := CallsForMore(policy, n, last.outcome) && abortsWait(n - 1);
    && (CallsForMore(policy, n, last.outcome) ==> waitAborted)
    && (forall s :: result == Succeeded(s) <==> last.outcome == Got(s) && 200 <= s <= 299)
    && (forall s :: result == HttpError(s) <==> last.outcome == Got(s) && !(200 <= s <= 299) && !waitAborted)
    && (forall u, k :: result == NetworkError(u, k) <==>
          last.outcome.Failed? && !(last.outcome.aborted && !last.outcome.timedOut) && !waitAborted &&
          u == last.fetches[|last.fetches| - 1].url && k == Total(rs))
    && (result == Aborted <==> waitAborted || (last.outcome.Failed? && last.outcome.aborted && !last.outcome.timedOut))
    && (forall e :: result == DispatchFailed(e) <==> last.outcome == Escaped(e))
  }

  lemma RequestEndsAs(w: World, call: Call, policy: Policy)
    ensures var run := RequestOf(w, call, policy); ResultOf(w.abortsWait, policy, run.attempts, run.result)
  {
    RequestIsRequest(w, call, policy);
    hide RequestOf, Attempt, AttemptFrom, Verdict, Total, ResultOf;
    var at, run := Attempts(w, call), RequestOf(w, call, policy);
    var rs, n := run.attempts, |run.attempts|;
    assert rs[n - 1] == at(0 + Total(rs[..n - 1]));
    FailureNamesLastFetch(w, call, Total(rs[..n - 1]));
    forall j | 0 <= j < n - 1 ensures CallsForMore(policy, j + 1, rs[j].outcome) && !w.abortsWait(j) {
      assert Verdict(policy, w.abortsWait, 0 + j, rs[j].outcome, 0) == None;
      GoesOn(policy, w.abortsWait, j, rs[j].outcome, 0);
    }
    assert 0 + n - 1 == n - 1;
    Ends(policy, w.abortsWait, rs, run.result);
  }

  lemma GoesOn(policy: Policy, abortsWait: nat -> bool, attempt: nat, o: AttemptOutcome, dispatched: nat)
    ensures Verdict(policy, abortsWait, attempt, o, dispatched) == None <==>
            CallsForMore(policy, attempt + 1, o) && !abortsWait(attempt)
  {
  }

  lemma Ends(policy: Policy, abortsWait: nat -> bool, rs: seq<AttemptRun>, result: RequestResult)
    requires rs != [] && rs[|rs| - 1].fetches != []
    requires forall j :: 0 <= j < |rs| - 1 ==> CallsForMore(policy, j + 1, rs[j].outcome) && !abortsWait(j)
    requires var last := rs[|rs| - 1];
             last.outcome.Failed? ==> last.outcome.url == last.fetches[|last.fetches| - 1].url
    requires Verdict(policy, abortsWait, |rs| - 1, rs[|rs| - 1].outcome, Total(rs)) == Some(result)
    ensures ResultOf(abortsWait, policy, rs, result)
  {
    hide Total;
  }

  /** A failed attempt names the URL of its last fetch. */
  lemma FailureNamesLastFetch(w: World, call: Call, index: nat)
    ensures var a := Attempt(w, call, index);
            a.fetches != [] && (a.outcome.Failed? ==> a.outcome.url == a.fetches[|a.fetches| - 1].url)
  {
    AttemptIsChain(w, call, index);
    hide Attempt, AttemptFrom, Hop, Distinct, Urls;
  }

  // ------------------------------------------------------------------ the policy

  /** An enabled policy is the one given, with the documented value for each field left out; a disabled one retries nothing. */
  lemma PolicyAsGiven(u: RetryOptions)
    requires NormalizeRetry(Some(u)).Some?
    ensures NormalizeRetry(Some(u)).value ==
            if u.enabled != Some(true) then Policy(false, 1, false, false, false, false)
            else Policy(true, if u.maxAttempts.Some? then u.maxAttempts.value.n else 3,
                        u.on404 == Some(true), u.on429 != Some(false), u.on5xx != Some(false), u.onNetworkError != Some(false))
  {
  }
}
