/**
 Pagination links: resolveMirrorNodeUrl (src/core/url.ts) and resolveNextLink
 (src/core/paging.ts), on the paths of parsed URLs. A URL path starts with a slash.
*/
module Links {
  import opened Limits
  import opened Wrappers

  const ROOT := "/api/v1"

  function WithoutLeadingSlashes(pathname: string): (r: string)
    ensures r != [] ==> r[0] != '/'
  {
    if pathname != [] && pathname[0] == '/' then WithoutLeadingSlashes(pathname[1..]) else pathname
  }

  predicate IsPathOrChild(pathname: string, parent: string) {
    pathname == parent || parent + "/" <= pathname
  }

  predicate EndsWithRoot(s: string) { |s| >= 7 && s[|s| - 7..] == ROOT }

  predicate IsPath(s: string) { s != [] && s[0] == '/' }

  /** A configured base path without its trailing slashes: empty for a bare origin. */
  predicate IsBase(b: string) { b != [] ==> b[0] == '/' && b[|b| - 1] != '/' }

  function WithoutTrailingSlashes(pathname: string): (r: string)
    ensures r <= pathname && (IsPath(pathname) ==> IsBase(r))
    ensures r != [] ==> r[|r| - 1] != '/'
  {
    if pathname != [] && pathname[|pathname| - 1] == '/' then WithoutTrailingSlashes(pathname[..|pathname| - 1])
    else pathname
  }

  function Resolve(base: string, endpoint: string): string {
    if base != [] && IsPathOrChild(endpoint, base) then endpoint
    else
      var rest := if EndsWithRoot(base) && IsPathOrChild(endpoint, ROOT) then endpoint[|ROOT|..] else endpoint;
      var suffix := WithoutLeadingSlashes(rest);
      if suffix != [] then base + "/" + suffix else if base != [] then base else "/"
  }

  // --------------------------------------------------------------- the API root

  /** The pattern of an API root matches at `i`: the root, then a slash or the end. */
  predicate RootAt(s: string, i: nat) {
    i + 7 <= |s| && s[i..i + 7] == ROOT && (i + 7 < |s| ==> s[i + 7] == '/')
  }

  /** `i` is the last position at which the pattern matches. */
  predicate IsLastRoot(s: string, i: nat) { RootAt(s, i) && forall j: nat :: i < j <= |s| ==> !RootAt(s, j) }

  predicate HasRoot(s: string) { exists i: nat :: i <= |s| && RootAt(s, i) }

  /** Scanning left to right, and past each match, still finds the last one. */
  method LastApiRoot(pathname: string) returns (last: Option<nat>)
    ensures last.None? <==> !HasRoot(pathname)
    ensures last.Some? ==> IsLastRoot(pathname, last.value)
  {
    hide RootAt;
    var i := 0;
    last := None;
    while i < |pathname|
      invariant last.Some? ==> last.value < i && RootAt(pathname, last.value)
      invariant forall j: nat :: j < i && RootAt(pathname, j) ==> last.Some? && j <= last.value
    {
      if RootAt(pathname, i) {
        RootsDoNotOverlap(pathname, i);
        last := Some(i);
        i := i + |ROOT|;
      } else {
        i := i + 1;
      }
    }
    assert !RootAt(pathname, |pathname|) by { NoRootAtEnd(pathname); }
    assert last.Some? ==> HasRoot(pathname) by { if last.Some? { RootInside(pathname, last.value); } }
  }

  lemma NoRootAtEnd(s: string)
    ensures !RootAt(s, |s|)
  {
  }

  lemma RootInside(s: string, i: nat)
    requires RootAt(s, i)
    ensures i <= |s|
  {
  }

  lemma RootsDoNotOverlap(s: string, i: nat)
    requires RootAt(s, i)
    ensures forall j: nat :: i < j < i + 7 ==> !RootAt(s, j)
  {
    forall j: nat | i < j < i + 7 ensures !RootAt(s, j) {
      RootHead(s, j);
      assert s[j] == s[i..i + 7][j - i];
      assert j == i + 4 ==> s[j + 1] == s[i..i + 7][5];
    }
  }

  lemma RootHead(s: string, j: nat)
    ensures RootAt(s, j) ==> j + 1 < |s| && s[j] == '/' && s[j + 1] == 'a'
  {
    assert ROOT[0] == '/' && ROOT[1] == 'a';
    if RootAt(s, j) {
      assert s[j] == s[j..j + 7][0] && s[j + 1] == s[j..j + 7][1];
    }
  }

  /**
   A link resolved against its page: no URL at all, or the URL's scheme, path and the value
   of its limit parameter, when it has one.
  */
  datatype Reference = NotAUrl | Parsed(web: bool, pathname: string, limit: Option<LimitValue>)

  datatype LinkError = InvalidUrl | NotHttp | NoApiRoot | InvalidLimit(error: LimitError)

  /** The provider-neutral path of a link, and the path and limit it has on the effective provider. */
  datatype NextLink = NextLink(path: string, pathname: string, limit: Option<int>)

  method ResolveNextLink(link: Reference, base: string, target: Target) returns (r: Result<NextLink, LinkError>)
    ensures link.NotAUrl? ==> r == Err(InvalidUrl)
    ensures link.Parsed? && !link.web ==> r == Err(NotHttp)
    ensures link.Parsed? && link.web && !HasRoot(link.pathname) ==> r == Err(NoApiRoot)
    ensures link.Parsed? && link.web && HasRoot(link.pathname) ==>
              exists p :: Logical(link.pathname, p) &&
                match ResolveLimitValue(target, link.limit, InferPageEndpoint(p))
                case Ok(limit) => r == Ok(NextLink(p, Resolve(base, p), limit))
                case Err(e) => r == Err(InvalidLimit(e))
  {
    hide ResolveLimitValue, InferPageEndpoint, Resolve;
    if link.NotAUrl? { return Err(InvalidUrl); }
    if !link.web { return Err(NotHttp); }
    var root := LastApiRoot(link.pathname);
    if root.None? { return Err(NoApiRoot); }
    var path := link.pathname[root.value..];
    assert Logical(link.pathname, path);
    var pathname, limit := Resolve(base, path), None;
    if link.limit.Some? {
      var resolved := ResolveLimitValue(target, link.limit, InferPageEndpoint(path));
      if resolved.Err? { return Err(InvalidLimit(resolved.error)); }
      limit := resolved.value;
    } else {
      NoLimit(target, InferPageEndpoint(path));
    }
    return Ok(NextLink(path, pathname, limit));
  }

  lemma NoLimit(target: Target, endpoint: Option<string>)
    ensures ResolveLimitValue(target, None, endpoint) == Ok(None)
  {
  }

  /** `p` is what follows the last API root of `s`, root included. */
  predicate Logical(s: string, p: string) {
    |p| <= |s| && IsLastRoot(s, |s| - |p|) && s[|s| - |p|..] == p
  }

  // ----------------------------------------------------------------- properties

  lemma LogicalIsUnique(s: string, p: string, q: string)
    requires Logical(s, p) && Logical(s, q)
    ensures p == q
  {
  }

  /** A path of its own: it starts with the API root and has no other. */
  predicate IsLogical(p: string) { IsLastRoot(p, 0) }

  lemma LogicalStandsAlone(s: string, p: string)
    requires Logical(s, p)
    ensures IsLogical(p)
  {
    hide RootAt;
    forall j: nat | j <= |p| ensures RootAt(p, j) <==> RootAt(s, |s| - |p| + j) {
      RootInSuffix(s, |s| - |p|, j);
    }
  }

  lemma RootInSuffix(s: string, k: nat, j: nat)
    requires k <= |s|
    ensures RootAt(s[k..], j) <==> RootAt(s, k + j)
  {
  }

  /** Resolving a resolved path again changes nothing. */
  lemma ResolveIsIdempotent(base: string, p: string)
    requires IsBase(base)
    ensures Resolve(base, Resolve(base, p)) == Resolve(base, p)
  {
    var r := Resolve(base, p);
    if base == [] {
      var suffix := WithoutLeadingSlashes(p);
      assert r == "/" + suffix;
      assert WithoutLeadingSlashes(suffix) == suffix && r[1..] == suffix;
    } else if !IsPathOrChild(p, base) {
      assert r == base || base + "/" <= r;
    }
  }

  /** A resolved path never leaves the provider's own prefix. */
  lemma ResolveKeepsPrefix(base: string, p: string)
    requires IsBase(base) && base != []
    ensures IsPathOrChild(Resolve(base, p), base)
  {
  }

  /** The endpoints a base at the API root does not carry: an empty segment after the root. */
  predicate EmptySegmentAfterRoot(p: string) { p == ROOT + "/" || ROOT + "//" <= p }

  predicate LosesSlashes(base: string, p: string) {
    EndsWithRoot(base) && !IsPathOrChild(p, base) && EmptySegmentAfterRoot(p)
  }

  /**
   Extraction undoes resolution: for every path that starts with the API root, exactly
   when that is its last root and the base does not lose slashes of it.
  */
  lemma RoundTrip(base: string, p: string)
    requires IsBase(base) && IsPathOrChild(p, ROOT)
    ensures Logical(Resolve(base, p), p) <==> IsLogical(p) && !LosesSlashes(base, p)
  {
    hide RootAt;
    if Logical(Resolve(base, p), p) { LogicalStandsAlone(Resolve(base, p), p); }
    if IsLogical(p) {
      if base != [] && IsPathOrChild(p, base) {
        assert p[0..] == p;
      } else if EndsWithRoot(base) {
        RoundTripAtRoot(base, p);
      } else {
        RoundTripBelowPrefix(base, p);
      }
    }
  }

  /** A provider at the API root drops the empty segment of `/api/v1//x`. */
  lemma EmptySegmentExample()
    ensures var base, p := "/m/api/v1", "/api/v1//x";
            IsLogical(p) && LosesSlashes(base, p) && Resolve(base, p) == "/m/api/v1/x" && !Logical(Resolve(base, p), p)
  {
    var base, p := "/m/api/v1", "/api/v1//x";
    assert base[|base| - 7..] == ROOT && p[..9] == ROOT + "//";
    assert p[|ROOT|..] == "//x" && "//x"[1..] == "/x" && "/x"[1..] == "x";
    assert WithoutLeadingSlashes("x") == "x";
    assert !(base + "/" <= p) by { assert base[1] != p[1]; }
    assert p[0..7] == ROOT;
    OnlyRootOf(p);
    RoundTrip(base, p);
  }

  lemma OnlyRootOf(p: string)
    requires p == "/api/v1//x"
    ensures IsLogical(p)
  {
    assert p[0..7] == ROOT;
    forall j: nat | 0 < j <= |p| ensures !RootAt(p, j) {
      RootHead(p, j);
    }
  }

  lemma RoundTripBelowPrefix(base: string, p: string)
    requires IsBase(base) && IsLogical(p) && !EndsWithRoot(base) && !(base != [] && IsPathOrChild(p, base))
    ensures Logical(Resolve(base, p), p)
  {
    var r := Resolve(base, p);
    assert p[..7] == ROOT && p[0] == '/' && p[1] == 'a';
    assert WithoutLeadingSlashes(p) == p[1..];
    assert r == base + p;
    assert r[|base|..] == p;
    hide RootAt;
    LastRootAfter(base, p);
  }

  lemma LastRootAfter(a: string, p: string)
    requires IsLogical(p)
    ensures IsLastRoot(a + p, |a|) && Logical(a + p, p)
  {
    hide RootAt;
    var r := a + p;
    assert r[|a|..] == p;
    forall j: nat | j <= |p| ensures RootAt(p, j) <==> RootAt(r, |a| + j) {
      RootInSuffix(r, |a|, j);
    }
    forall j: nat | |a| < j <= |r| ensures !RootAt(r, j) {
      assert RootAt(p, j - |a|) <==> RootAt(r, |a| + (j - |a|));
    }
  }

  /** What a base at the API root turns `p` into, read back. */
  function Tidy(p: string): string
    requires IsPathOrChild(p, ROOT)
  {
    var suffix := WithoutLeadingSlashes(p[|ROOT|..]);
    if suffix == [] then ROOT else ROOT + "/" + suffix
  }

  lemma RoundTripAtRoot(base: string, p: string)
    requires IsBase(base) && IsPathOrChild(p, ROOT) && IsLogical(p) && EndsWithRoot(base) && !IsPathOrChild(p, base)
    ensures Logical(Resolve(base, p), Tidy(p)) && IsLogical(Tidy(p))
    ensures Logical(Resolve(base, p), p) <==> !EmptySegmentAfterRoot(p)
  {
    var q := Tidy(p);
    var before := base[..|base| - 7];
    assert base == before + ROOT;
    assert Resolve(base, p) == before + q;
    TidyIsLogical(p);
    LastRootAfter(before, q);
    TidyKeeps(p);
    if q != p && Logical(before + q, p) {
      LogicalIsUnique(before + q, p, q);
    }
  }

  lemma TidyKeeps(p: string)
    requires IsPathOrChild(p, ROOT)
    ensures Tidy(p) == p <==> !EmptySegmentAfterRoot(p)
  {
    var rest := p[|ROOT|..];
    assert p == ROOT + rest;
    assert EmptySegmentAfterRoot(p) <==> rest == "/" || "//" <= rest;
    if rest != [] {
      assert rest[0] == '/';
      assert WithoutLeadingSlashes(rest) == WithoutLeadingSlashes(rest[1..]);
      if |rest| > 1 && rest[1] != '/' {
        assert WithoutLeadingSlashes(rest) == rest[1..];
        assert rest == "/" + rest[1..];
      }
    }
  }

  lemma {:induction false} LeadingSlashes(rest: string) returns (k: nat)
    requires rest != [] && rest[0] == '/' && WithoutLeadingSlashes(rest) != []
    ensures k < |rest| && rest[k..] == "/" + WithoutLeadingSlashes(rest)
  {
    if rest[1..] != [] && rest[1] == '/' {
      k := LeadingSlashes(rest[1..]);
      k := k + 1;
    } else {
      k := 0;
      assert WithoutLeadingSlashes(rest) == rest[1..];
    }
  }

  lemma TidyIsLogical(p: string)
    requires IsPathOrChild(p, ROOT) && IsLogical(p)
    ensures IsLogical(Tidy(p))
  {
    var q, rest := Tidy(p), p[|ROOT|..];
    assert RootAt(q, 0);
    hide RootAt;
    RootsDoNotOverlap(q, 0);
    if q != ROOT {
      assert p == ROOT + rest && rest[0] == '/';
      var k := LeadingSlashes(rest);
      assert q[7..] == rest[k..] == p[7 + k..];
      forall j: nat | 7 <= j <= |q| ensures !RootAt(q, j) {
        RootInSuffix(q, 7, j - 7);
        RootInSuffix(p, 7 + k, j - 7);
      }
    } else {
      NoRootAtEnd(q);
    }
  }

  // ------------------------------------------------------------------ page by page

  /** The paths followed from `p`, one provider after another. */
  ghost predicate Hops(bases: seq<string>, p: string, last: string)
    decreases |bases|
  {
    if bases == [] then last == p
    else exists q :: Logical(Resolve(bases[0], p), q) && Hops(bases[1..], q, last)
  }

  predicate SomeBaseLosesSlashes(bases: seq<string>, p: string) {
    exists i :: 0 <= i < |bases| && LosesSlashes(bases[i], p)
  }

  /**
   Whatever link a server returns, and whatever providers then serve the following pages,
   the logical path taken from the link stays as it is; only a provider whose base ends at
   the API root tidies away an empty segment right after it, once and for all.
  */
  lemma HopsKeepThePath(link: string, p: string, bases: seq<string>, last: string)
    requires Logical(link, p) && forall i :: 0 <= i < |bases| ==> IsBase(bases[i])
    ensures IsPathOrChild(p, ROOT)
    ensures Hops(bases, p, last) <==> last == if SomeBaseLosesSlashes(bases, p) then Tidy(p) else p
  {
    LogicalStandsAlone(link, p);
    StartsAtRoot(p);
    HopsEnd(p, bases, last);
  }

  lemma {:induction false} HopsEnd(p: string, bases: seq<string>, last: string)
    requires IsLogical(p) && IsPathOrChild(p, ROOT) && forall i :: 0 <= i < |bases| ==> IsBase(bases[i])
    ensures Hops(bases, p, last) <==> last == if SomeBaseLosesSlashes(bases, p) then Tidy(p) else p
    decreases |bases|
  {
    hide Logical, Resolve, LosesSlashes, IsLogical, Tidy, IsPathOrChild, IsBase;
    if bases != [] {
      var base, rest := bases[0], bases[1..];
      NextHop(base, p);
      var q := if LosesSlashes(base, p) then Tidy(p) else p;
      HopsEnd(q, rest, last);
      if q == p {
        assert SomeBaseLosesSlashes(bases, p) <==> LosesSlashes(base, p) || SomeBaseLosesSlashes(rest, p);
      } else {
        assert SomeBaseLosesSlashes(bases, p);
      }
      forall r | Logical(Resolve(base, p), r) ensures r == q {
        LogicalIsUnique(Resolve(base, p), q, r);
      }
    }
  }

  /** One hop tidies the path or keeps it, and a tidy path has nothing left to lose. */
  lemma NextHop(base: string, p: string)
    requires IsLogical(p) && IsPathOrChild(p, ROOT) && IsBase(base)
    ensures IsLogical(Tidy(p)) && IsPathOrChild(Tidy(p), ROOT) && !EmptySegmentAfterRoot(Tidy(p))
    ensures forall b :: !LosesSlashes(b, Tidy(p))
    ensures Logical(Resolve(base, p), if LosesSlashes(base, p) then Tidy(p) else p)
    ensures Tidy(p) == p ==> !LosesSlashes(base, p)
  {
    hide RootAt, Logical, Resolve;
    TidyIsLogical(p);
    TidyKeeps(p);
    TidyHasNoEmptySegment(p);
    if LosesSlashes(base, p) { RoundTripAtRoot(base, p); } else { RoundTrip(base, p); }
  }

  lemma TidyHasNoEmptySegment(p: string)
    requires IsPathOrChild(p, ROOT)
    ensures !EmptySegmentAfterRoot(Tidy(p))
  {
    var suffix := WithoutLeadingSlashes(p[|ROOT|..]);
    assert suffix != [] ==> Tidy(p)[8] == suffix[0];
  }

  lemma StartsAtRoot(p: string)
    requires IsLogical(p)
    ensures IsPathOrChild(p, ROOT)
  {
  }

  // ------------------------------------------------------ what stands where

  lemma {:induction false} StripsSlashes(slashes: string, rest: string)
    requires (forall i :: 0 <= i < |slashes| ==> slashes[i] == '/') && (rest != [] ==> rest[0] != '/')
    ensures WithoutLeadingSlashes(slashes + rest) == rest
    decreases |slashes|
  {
    if slashes == [] {
      assert slashes + rest == rest;
    } else {
      StripsSlashes(slashes[1..], rest);
      assert (slashes + rest)[1..] == slashes[1..] + rest;
    }
  }

  lemma {:induction false} StripsEnd(path: string, slashes: string)
    requires (forall i :: 0 <= i < |slashes| ==> slashes[i] == '/') && (path != [] ==> path[|path| - 1] != '/')
    ensures WithoutTrailingSlashes(path + slashes) == path
    decreases |slashes|
  {
    if slashes == [] {
      assert path + slashes == path;
    } else {
      var init := slashes[..|slashes| - 1];
      StripsEnd(path, init);
      assert (path + slashes)[..|path + slashes| - 1] == path + init;
    }
  }

  /** A path that is at or below the base already stays as it is. */
  lemma ResolvesBelow(base: string, p: string)
    requires base != [] && IsPathOrChild(p, base)
    ensures Resolve(base, p) == p
  {
  }

  /** A base at the API root has what follows the root of the endpoint put behind it, so the root stands there once. */
  lemma ResolvesAtRoot(prefix: string, slashes: string, rest: string)
    requires slashes != [] && (forall i :: 0 <= i < |slashes| ==> slashes[i] == '/') && (rest != [] ==> rest[0] != '/')
    requires !IsPathOrChild(ROOT + slashes + rest, prefix + ROOT)
    ensures Resolve(prefix + ROOT, ROOT + slashes + rest) == if rest == [] then prefix + ROOT else prefix + ROOT + "/" + rest
  {
    var base, p := prefix + ROOT, ROOT + slashes + rest;
    assert base[|base| - 7..] == ROOT;
    assert p[..8] == ROOT + "/" && p[|ROOT|..] == slashes + rest;
    StripsSlashes(slashes, rest);
  }

  /** Any other base has the whole endpoint put behind it, with one slash between them. */
  lemma ResolvesBehind(base: string, slashes: string, rest: string)
    requires (forall i :: 0 <= i < |slashes| ==> slashes[i] == '/') && (rest != [] ==> rest[0] != '/')
    requires !(base != [] && IsPathOrChild(slashes + rest, base))
    requires !(EndsWithRoot(base) && IsPathOrChild(slashes + rest, ROOT))
    ensures Resolve(base, slashes + rest) == if rest != [] then base + "/" + rest else if base != [] then base else "/"
  {
    StripsSlashes(slashes, rest);
  }
}
