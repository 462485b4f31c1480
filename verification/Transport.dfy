/**
 HttpTransport.request (src/core/http.ts): logical attempts that follow same-origin
 redirects one dispatched fetch at a time, inside a retry loop.

 The network, the dispatcher, the caller's abort signal and the URL parser are oracles.
 A fetch is identified by its dispatch index, so an arbitrary function of the index is an
 arbitrary server.
*/
module Transport {
  import opened Numbers
  import opened Wrappers

  const MAX_REDIRECT_HOPS: nat := 20
  const MAX_TIMER_DELAY_MS: int := 2147483647

  datatype Method = GET | POST | PUT | DELETE

  /** One dispatched fetch. */
  datatype Fetch = Fetch(url: string, verb: Method, body: Option<string>)

  /** What the network does with one fetch, and what the two cancellation signals say afterwards. */
  datatype Reply =
    | Throws(aborted: bool, timedOut: bool)
    | OpaqueRedirect(aborted: bool, timedOut: bool)
    | Answer(status: nat, location: Option<string>, bodyFails: bool, badJson: bool, aborted: bool, timedOut: bool)

  /**
   Why a dispatch was rejected. Only a lack of capacity says that nothing was sent: an abort
   rejects a dispatch at once, also when its fetch is already under way.
  */
  datatype DispatchError = NoCapacity | AbortedInDispatch | OtherError

  /** The dispatcher runs the fetch to its end, or rejects. */
  datatype Dispatched = Ran(reply: Reply) | Refused(error: DispatchError)

  datatype Physical =
    | Redirect(status: nat, location: string)
    | Response(status: nat)
    | Failure(timedOut: bool, aborted: bool)

  /** A parsed absolute URL; `web` says that its scheme is http or https. */
  datatype Url = Url(href: string, origin: string, web: bool)

  datatype World = World(
    dispatch: (nat, Fetch) -> Dispatched,
    resolve: (string, string) -> Option<Url>,
    abortsWait: nat -> bool)

  /** One call: its URL with that URL's origin, method and serialized body. */
  datatype Call = Call(url: string, origin: string, verb: Method, body: Option<string>)

  // ------------------------------------------------------------ one physical fetch

  predicate Success(status: nat) { 200 <= status <= 299 }

  predicate RedirectStatus(status: nat) { status in {301, 302, 303, 307, 308} }

  /** Classification of a reply, in the order the code tests it. */
  function Classify(r: Reply): Physical {
    match r
    case Throws(aborted, timedOut) => Failure(timedOut, aborted)
    case OpaqueRedirect(aborted, timedOut) => Failure(timedOut, aborted)
    case Answer(status, location, bodyFails, badJson, aborted, timedOut) =>
      if aborted || timedOut then Failure(timedOut, aborted)
      else if RedirectStatus(status) && location.Some? then Redirect(status, location.value)
      else if Success(status) && (bodyFails || badJson) then Failure(false, false)
      else Response(status)
  }

  function RedirectMethod(status: nat, verb: Method): Method {
    if status == 303 || ((status == 301 || status == 302) && verb == POST) then GET else verb
  }

  function Outgoing(url: string, verb: Method, body: Option<string>): Fetch {
    Fetch(url, verb, if verb == GET then None else body)
  }

  // -------------------------------------------------------------- one logical attempt

  datatype AttemptOutcome =
    | Got(status: nat)
    | Failed(timedOut: bool, aborted: bool, url: string)
    | Escaped(error: DispatchError)

  /** The outcome of a logical attempt and the fetches it dispatched, in order. */
  datatype AttemptRun = AttemptRun(outcome: AttemptOutcome, fetches: seq<Fetch>)

  /** The destination of a redirect from `url` when the redirect policy lets it through. */
  function Destination(w: World, origin: string, url: string, location: string, visited: set<string>, hops: nat): Option<string> {
    match w.resolve(location, url)
    case None => None
    case Some(u) =>
      if !u.web || u.origin != origin || u.href in visited || hops >= MAX_REDIRECT_HOPS then None else Some(u.href)
  }

  function AttemptFrom(w: World, origin: string, index: nat, url: string, verb: Method, body: Option<string>,
                       visited: set<string>, hops: nat): AttemptRun
    decreases MAX_REDIRECT_HOPS - hops
  {
    var fetch := Outgoing(url, verb, body);
    match w.dispatch(index, fetch)
    case Refused(error) => AttemptRun(Escaped(error), [fetch])
    case Ran(reply) =>
      match Classify(reply)
      case Failure(timedOut, aborted) => AttemptRun(Failed(timedOut, aborted, url), [fetch])
      case Response(status) => AttemptRun(Got(status), [fetch])
      case Redirect(status, location) =>
        match Destination(w, origin, url, location, visited, hops)
        case None => AttemptRun(Failed(false, false, url), [fetch])
        case Some(next) =>
          var verb' := RedirectMethod(status, verb);
          var body' := if verb' == GET && verb != GET then None else body;
          var rest := AttemptFrom(w, origin, index + 1, next, verb', body', visited + {next}, hops + 1);
          AttemptRun(rest.outcome, [fetch] + rest.fetches)
  }

  function Attempt(w: World, call: Call, index: nat): AttemptRun {
    AttemptFrom(w, call.origin, index, call.url, call.verb, call.body, {call.url}, 0)
  }

  /** A redirect loop that has dispatched `done` and goes on from `url` ends as `whole` does. */
  ghost predicate Following(w: World, origin: string, index: nat, url: string, verb: Method, body: Option<string>,
                            visited: set<string>, hops: nat, done: seq<Fetch>, whole: AttemptRun) {
    var rest := AttemptFrom(w, origin, index, url, verb, body, visited, hops);
    whole == AttemptRun(rest.outcome, done + rest.fetches)
  }

  lemma FollowingStep(w: World, origin: string, index: nat, url: string, verb: Method, body: Option<string>,
                      visited: set<string>, hops: nat, done: seq<Fetch>, whole: AttemptRun)
    requires Following(w, origin, index, url, verb, body, visited, hops, done, whole)
    ensures var fetch := Outgoing(url, verb, body);
            match w.dispatch(index, fetch)
            case Refused(error) => whole == AttemptRun(Escaped(error), done + [fetch])
            case Ran(reply) =>
              match Classify(reply)
              case Failure(timedOut, aborted) => whole == AttemptRun(Failed(timedOut, aborted, url), done + [fetch])
              case Response(status) => whole == AttemptRun(Got(status), done + [fetch])
              case Redirect(status, location) =>
                match Destination(w, origin, url, location, visited, hops)
                case None => whole == AttemptRun(Failed(false, false, url), done + [fetch])
                case Some(next) =>
                  var verb' := RedirectMethod(status, verb);
                  Following(w, origin, index + 1, next, verb', if verb' == GET && verb != GET then None else body,
                            visited + {next}, hops + 1, done + [fetch], whole)
  {
    hide Classify, RedirectMethod;
    var fetch := Outgoing(url, verb, body);
    assert forall rest: seq<Fetch> :: done + ([fetch] + rest) == (done + [fetch]) + rest;
  }

  lemma FollowingStarts(w: World, call: Call, index: nat)
    ensures Following(w, call.origin, index, call.url, call.verb, call.body, {call.url}, 0, [], Attempt(w, call, index))
  {
    var run := Attempt(w, call, index);
    assert [] + run.fetches == run.fetches;
  }

  /** The redirect loop of one logical attempt. */
  method PerformAttempt(w: World, call: Call, index: nat) returns (run: AttemptRun)
    ensures run == Attempts(w, call)(index)
  {
    hide AttemptFrom, Following, Classify, RedirectMethod;
    ghost var whole := Attempt(w, call, index);
    var currentUrl, currentMethod, currentBody := call.url, call.verb, call.body;
    var redirectCount := 0;
    var visited := {currentUrl};
    var physicalAttempt := index;
    var fetches: seq<Fetch> := [];
    FollowingStarts(w, call, index);
    while true
      invariant redirectCount <= MAX_REDIRECT_HOPS
      invariant Following(w, call.origin, physicalAttempt, currentUrl, currentMethod, currentBody, visited, redirectCount,
                          fetches, whole)
      decreases MAX_REDIRECT_HOPS - redirectCount
    {
      var fetch := Outgoing(currentUrl, currentMethod, currentBody);
      var outcome := w.dispatch(physicalAttempt, fetch);
      physicalAttempt := physicalAttempt + 1;
      FollowingStep(w, call.origin, physicalAttempt - 1, currentUrl, currentMethod, currentBody, visited, redirectCount,
                    fetches, whole);
      fetches := fetches + [fetch];
      if outcome.Refused? {
        return AttemptRun(Escaped(outcome.error), fetches);
      }
      var physical := Classify(outcome.reply);
      if physical.Failure? {
        return AttemptRun(Failed(physical.timedOut, physical.aborted, currentUrl), fetches);
      }
      if physical.Response? {
        return AttemptRun(Got(physical.status), fetches);
      }
      var destination := w.resolve(physical.location, currentUrl);
      if destination.None? {
        return AttemptRun(Failed(false, false, currentUrl), fetches);
      }
      if !destination.value.web || destination.value.origin != call.origin {
        return AttemptRun(Failed(false, false, currentUrl), fetches);
      }
      if destination.value.href in visited {
        return AttemptRun(Failed(false, false, currentUrl), fetches);
      }
      if redirectCount >= MAX_REDIRECT_HOPS {
        return AttemptRun(Failed(false, false, currentUrl), fetches);
      }
      visited := visited + {destination.value.href};
      redirectCount := redirectCount + 1;
      var nextMethod := RedirectMethod(physical.status, currentMethod);
      if nextMethod == GET && currentMethod != GET {
        currentBody := None;
      }
      currentMethod := nextMethod;
      currentUrl := destination.value.href;
    }
  }

  // ------------------------------------------------------------------ retry policy

  /** A policy field as JavaScript sees it. */
  datatype Number = Whole(n: int) | NotWhole

  datatype RetryOptions = RetryOptions(
    enabled: Option<bool>, maxAttempts: Option<Number>, initialDelayMs: Option<Number>, maxDelayMs: Option<Number>,
    on404: Option<bool>, on429: Option<bool>, on5xx: Option<bool>, onNetworkError: Option<bool>)

  datatype Policy = Policy(enabled: bool, maxAttempts: nat, on404: bool, on429: bool, on5xx: bool, onNetworkError: bool)

  function GetOr<T>(o: Option<T>, default: T): T { if o.Some? then o.value else default }

  predicate ValidDelay(d: Number) { d.Whole? && 0 <= d.n <= MAX_TIMER_DELAY_MS }

  predicate AttemptsAllowed(maxAttempts: Option<Number>) {
    match maxAttempts
    case None => true
    case Some(NotWhole) => false
    case Some(Whole(n)) => 1 <= n <= MAX_SAFE_INTEGER
  }

  predicate DelayAllowed(delay: Option<Number>) {
    match delay
    case None => true
    case Some(NotWhole) => false
    case Some(Whole(n)) => 0 <= n <= MAX_TIMER_DELAY_MS
  }

  /** None stands for the configuration error. */
  function NormalizeRetry(user: Option<RetryOptions>): (policy: Option<Policy>)
    ensures policy.None? <==>
            user.Some? && user.value.enabled == Some(true) &&
            !(AttemptsAllowed(user.value.maxAttempts) && DelayAllowed(user.value.initialDelayMs) &&
              DelayAllowed(user.value.maxDelayMs))
    ensures policy.Some? ==> policy.value.maxAttempts >= 1
    ensures policy.Some? && !policy.value.enabled ==>
              policy.value.maxAttempts == 1 && forall s :: !RetryableStatus(policy.value, s)
  {
    var u := GetOr(user, RetryOptions(None, None, None, None, None, None, None, None));
    var attempts := GetOr(u.maxAttempts, Whole(3));
    if !GetOr(u.enabled, false) then Some(Policy(false, 1, false, false, false, false))
    else if !(attempts.Whole? && 1 <= attempts.n <= MAX_SAFE_INTEGER) then None
    else if !ValidDelay(GetOr(u.initialDelayMs, Whole(250))) || !ValidDelay(GetOr(u.maxDelayMs, Whole(4000))) then None
    else
      Some(Policy(true, attempts.n, GetOr(u.on404, false), GetOr(u.on429, true), GetOr(u.on5xx, true),
                  GetOr(u.onNetworkError, true)))
  }

  predicate RetryableStatus(policy: Policy, status: nat) {
    policy.enabled && ((status == 404 && policy.on404) || (status == 429 && policy.on429) || (status >= 500 && policy.on5xx))
  }

  // ---------------------------------------------------------------------- the request

  datatype RequestResult =
    | Succeeded(status: nat)
    | HttpError(status: nat)
    | NetworkError(url: string, attempts: nat)
    | Aborted
    | DispatchFailed(error: DispatchError)

  /** The result of a request and its logical attempts, each with its fetches. */
  datatype RequestRun = RequestRun(result: RequestResult, attempts: seq<AttemptRun>)

  /** The verdict on an attempt: whether it may be retried, and the result if it is not. */
  predicate Retryable(policy: Policy, o: AttemptOutcome) {
    match o
    case Escaped(_) => false
    case Got(status) => !Success(status) && RetryableStatus(policy, status)
    case Failed(timedOut, aborted, _) => (timedOut || !aborted) && policy.enabled && policy.onNetworkError
  }

  function Conclusion(o: AttemptOutcome, dispatched: nat): RequestResult {
    match o
    case Escaped(error) => DispatchFailed(error)
    case Got(status) => if Success(status) then Succeeded(status) else HttpError(status)
    case Failed(timedOut, aborted, url) => if !timedOut && aborted then Aborted else NetworkError(url, dispatched)
  }

  /** What ends the retry loop after attempt number `attempt`; None when the loop goes on. */
  function Verdict(policy: Policy, abortsWait: nat -> bool, attempt: nat, o: AttemptOutcome, dispatched: nat): Option<RequestResult> {
    if !Retryable(policy, o) || attempt + 1 >= policy.maxAttempts then Some(Conclusion(o, dispatched))
    else if abortsWait(attempt) then Some(Aborted)
    else None
  }

  /** The retry loop over the logical attempts `at`, each a function of its first dispatch index. */
  function RetryFrom(at: nat -> AttemptRun, abortsWait: nat -> bool, policy: Policy, attempt: nat, index: nat): RequestRun
    decreases policy.maxAttempts - attempt
  {
    var run := at(index);
    var index' := index + |run.fetches|;
    match Verdict(policy, abortsWait, attempt, run.outcome, index')
    case Some(result) => RequestRun(result, [run])
    case None =>
      var rest := RetryFrom(at, abortsWait, policy, attempt + 1, index');
      RequestRun(rest.result, [run] + rest.attempts)
  }

  function Attempts(w: World, call: Call): nat -> AttemptRun {
    (index: nat) => Attempt(w, call, index)
  }

  function RequestOf(w: World, call: Call, policy: Policy): RequestRun {
    RetryFrom(Attempts(w, call), w.abortsWait, policy, 0, 0)
  }

  /** The tests of the retry loop after one attempt, in the order the code makes them. */
  method JudgeAttempt(policy: Policy, abortsWait: nat -> bool, attempt: nat, outcome: AttemptOutcome, physicalAttempt: nat)
    returns (ended: Option<RequestResult>)
    ensures ended == Verdict(policy, abortsWait, attempt, outcome, physicalAttempt)
  {
    match outcome {
      case Escaped(error) => return Some(DispatchFailed(error));
      case Failed(timedOut, aborted, url) =>
        if !timedOut && aborted {
          return Some(Aborted);
        }
        if !policy.enabled || !policy.onNetworkError || attempt >= policy.maxAttempts - 1 {
          return Some(NetworkError(url, physicalAttempt));
        }
      case Got(status) =>
        if Success(status) {
          return Some(Succeeded(status));
        }
        if !(RetryableStatus(policy, status) && attempt < policy.maxAttempts - 1) {
          return Some(HttpError(status));
        }
    }
    ended := if abortsWait(attempt) then Some(Aborted) else None;
  }

  /** A retry loop that has made `done` and goes on with attempt number `attempt` ends as `whole` does. */
  ghost predicate OnTrack(at: nat -> AttemptRun, abortsWait: nat -> bool, policy: Policy, attempt: nat, index: nat,
                          done: seq<AttemptRun>, whole: RequestRun) {
    var rest := RetryFrom(at, abortsWait, policy, attempt, index);
    whole == RequestRun(rest.result, done + rest.attempts)
  }

  lemma OnTrackStep(at: nat -> AttemptRun, abortsWait: nat -> bool, policy: Policy, attempt: nat, index: nat,
                    done: seq<AttemptRun>, whole: RequestRun)
    requires OnTrack(at, abortsWait, policy, attempt, index, done, whole)
    ensures var run := at(index);
            match Verdict(policy, abortsWait, attempt, run.outcome, index + |run.fetches|)
            case Some(result) => whole == RequestRun(result, done + [run])
            case None => OnTrack(at, abortsWait, policy, attempt + 1, index + |run.fetches|, done + [run], whole)
  {
  }

  /** The retry loop. */
  method Request(w: World, call: Call, policy: Policy) returns (run: RequestRun)
    requires policy.maxAttempts >= 1
    ensures run == RequestOf(w, call, policy)
  {
    hide Attempts, Attempt, AttemptFrom;
    var attempt: nat, physicalAttempt: nat := 0, 0;
    var attempts: seq<AttemptRun> := [];
    ghost var at, whole := Attempts(w, call), RequestOf(w, call, policy);
    assert OnTrack(at, w.abortsWait, policy, 0, 0, [], whole) by {
      assert [] + whole.attempts == whole.attempts;
    }
    while true
      invariant attempt < policy.maxAttempts
      invariant OnTrack(at, w.abortsWait, policy, attempt, physicalAttempt, attempts, whole)
      decreases policy.maxAttempts - attempt
    {
      OnTrackStep(at, w.abortsWait, policy, attempt, physicalAttempt, attempts, whole);
      var outcome := PerformAttempt(w, call, physicalAttempt);
      physicalAttempt := physicalAttempt + |outcome.fetches|;
      attempts := attempts + [outcome];
      var ended := JudgeAttempt(policy, w.abortsWait, attempt, outcome.outcome, physicalAttempt);
      if ended.Some? {
        return RequestRun(ended.value, attempts);
      }
      attempt := attempt + 1;
    }
  }
}
