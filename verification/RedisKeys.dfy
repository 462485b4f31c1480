/**
 Key patterns and prefix-scoped clearing of the Redis cache adapter
 (src/core/cache-redis.ts). Keys are sequences of characters.
*/
module RedisKeys {
  // ------------------------------------------------- Redis's side: glob matching

  /** Does character `c` belong to the class whose body starts at `p`? Also the pattern after the class. */
  function InClass(p: string, c: char): (r: (bool, string))
    ensures |r.1| <= |p|
    decreases |p|
  {
    if p == [] then (false, [])
    else if p[0] == ']' then (false, p[1..])
    else if p[0] == '\\' && |p| >= 2 then
      var (found, rest) := InClass(p[2..], c); (found || p[1] == c, rest)
    else if |p| >= 3 && p[1] == '-' then
      var lo, hi := if p[0] <= p[2] then p[0] else p[2], if p[0] <= p[2] then p[2] else p[0];
      var (found, rest) := InClass(p[3..], c); (found || lo <= c <= hi, rest)
    else
      var (found, rest) := InClass(p[1..], c); (found || p[0] == c, rest)
  }

  /** Redis's glob matcher: star, question mark, bracket classes and backslash escapes. */
  predicate Match(p: string, s: string)
    decreases |p| + |s|
  {
    if p == [] then s == []
    else if p[0] == '*' then Match(p[1..], s) || (s != [] && Match(p, s[1..]))
    else if s == [] then false
    else if p[0] == '?' then Match(p[1..], s[1..])
    else if p[0] == '[' then
      var negated := |p| >= 2 && p[1] == '^';
      var (found, rest) := InClass(if negated then p[2..] else p[1..], s[0]);
      found != negated && Match(rest, s[1..])
    else if p[0] == '\\' && |p| >= 2 then s[0] == p[1] && Match(p[2..], s[1..])
    else s[0] == p[0] && Match(p[1..], s[1..])
  }

  // --------------------------------------------------------- the adapter's side

  predicate IsMeta(c: char) { c in {'\\', '*', '?', '[', ']'} }

  function EscapeScanPattern(value: string): string {
    if value == [] then []
    else (if IsMeta(value[0]) then ['\\', value[0]] else [value[0]]) + EscapeScanPattern(value[1..])
  }

  function ScanPattern(prefix: string): string { EscapeScanPattern(prefix) + "*" }

  lemma StarMatchesAll(s: string)
    ensures Match("*", s)
  {
  }

  /** The matcher undoes the escaping: a key matches the pattern exactly when it starts with the literal prefix. */
  lemma {:induction false} PatternIsPrefix(prefix: string, key: string)
    ensures Match(ScanPattern(prefix), key) <==> prefix <= key
    decreases |prefix|
  {
    if prefix == [] {
      StarMatchesAll(key);
      assert ScanPattern(prefix) == "*";
    } else {
      var c, rest := prefix[0], prefix[1..];
      var p := ScanPattern(prefix);
      assert p == (if IsMeta(c) then ['\\', c] else [c]) + ScanPattern(rest);
      assert p[if IsMeta(c) then 2 else 1..] == ScanPattern(rest);
      if key != [] {
        PatternIsPrefix(rest, key[1..]);
        assert prefix <= key <==> c == key[0] && rest <= key[1..];
      }
    }
  }

  /** Unescaped, a prefix could select keys that do not start with it. */
  lemma UnescapedIsTooBroad()
    ensures Match("?" + "*", "a") && !("?" <= "a")
  {
  }

  // ---------------------------------------------------------------------- clear()

  /** The distinct keys of a page that carry the prefix, in order of first appearance. */
  function Matching(prefix: string, page: seq<string>): seq<string> {
    if page == [] then []
    else
      var before, key := Matching(prefix, page[..|page| - 1]), page[|page| - 1];
      if prefix <= key && key !in before then before + [key] else before
  }

  function Concat(chunks: seq<seq<string>>): seq<string> {
    if chunks == [] then [] else Concat(chunks[..|chunks| - 1]) + chunks[|chunks| - 1]
  }

  function AllMatching(prefix: string, pages: seq<seq<string>>): seq<string> {
    if pages == [] then [] else AllMatching(prefix, pages[..|pages| - 1]) + Matching(prefix, pages[|pages| - 1])
  }

  const CHUNK_SIZE: nat := 1000

  lemma ConcatAppend(chunks: seq<seq<string>>, chunk: seq<string>)
    ensures Concat(chunks + [chunk]) == Concat(chunks) + chunk
  {
  }

  /** The keys of one SCAN page that may be deleted. */
  method KeysOfPage(prefix: string, page: seq<string>) returns (keys: seq<string>)
    ensures keys == Matching(prefix, page)
  {
    keys := [];
    for i := 0 to |page|
      invariant keys == Matching(prefix, page[..i])
    {
      assert page[..i + 1][..i] == page[..i];
      if prefix <= page[i] && page[i] !in keys {
        keys := keys + [page[i]];
      }
    }
    assert page[..|page|] == page;
  }

  /** What SCAN answers: a page of keys, or a reply that throws, be it an error or a malformed one. */
  datatype Reply = Page(keys: seq<string>) | Failure

  /** The pages before the first failing reply. */
  function PagesOf(replies: seq<Reply>): seq<seq<string>> {
    if replies == [] || replies[0].Failure? then [] else [replies[0].keys] + PagesOf(replies[1..])
  }

  predicate NoFailure(replies: seq<Reply>) { forall j :: 0 <= j < |replies| ==> replies[j].Page? }

  /** How a clear() ends: with the cursor back at zero, or with the error of a SCAN or of a DEL. */
  datatype Ending = Done | ScanFailed | DelFailed

  /** Command number i fails when `fails(i)`: none of those sent has, but for the last after a DEL error. */
  predicate SentUntil(dels: seq<seq<string>>, fails: nat -> bool, ending: Ending) {
    if ending == DelFailed then
      dels != [] && fails(|dels| - 1) && forall i :: 0 <= i < |dels| - 1 ==> !fails(i)
    else forall i :: 0 <= i < |dels| ==> !fails(i)
  }

  predicate Chunked(dels: seq<seq<string>>) { forall d :: d in dels ==> 1 <= |d| <= CHUNK_SIZE }

  /** Sends the keys of one page after the commands already sent, chunk by chunk until one fails. */
  method DeleteAll(allKeys: seq<string>, sent: seq<seq<string>>, fails: nat -> bool)
    returns (dels: seq<seq<string>>, ending: Ending)
    requires SentUntil(sent, fails, Done) && Chunked(sent)
    ensures Concat(dels) <= Concat(sent) + allKeys && (ending != DelFailed ==> Concat(dels) == Concat(sent) + allKeys)
    ensures ending != ScanFailed && SentUntil(dels, fails, ending) && Chunked(dels)
  {
    hide Concat;
    dels := sent;
    var i: nat := 0;
    assert Concat(sent) + allKeys[..0] == Concat(sent);
    while i < |allKeys|
      invariant i <= |allKeys| && Concat(dels) == Concat(sent) + allKeys[..i]
      invariant SentUntil(dels, fails, Done) && Chunked(dels)
    {
      var end := if i + CHUNK_SIZE <= |allKeys| then i + CHUNK_SIZE else |allKeys|;
      var chunk := allKeys[i..end];
      ConcatAppend(dels, chunk);
      TakeMore(Concat(sent), allKeys, i, end);
      dels := dels + [chunk];
      if fails(|dels| - 1) { return dels, DelFailed; }
      i := end;
    }
    assert allKeys[..i] == allKeys;
    ending := Done;
  }

  lemma TakeMore(before: seq<string>, keys: seq<string>, i: nat, end: nat)
    requires i <= end <= |keys|
    ensures (before + keys[..i]) + keys[i..end] == before + keys[..end] <= before + keys
  {
  }

  lemma AllMatchingAppend(prefix: string, pages: seq<seq<string>>, page: seq<string>)
    ensures AllMatching(prefix, pages + [page]) == AllMatching(prefix, pages) + Matching(prefix, page)
  {
    assert (pages + [page])[..|pages|] == pages;
  }

  lemma {:induction false} PagesUpTo(replies: seq<Reply>, j: nat)
    requires j < |replies| && NoFailure(replies[..j])
    ensures PagesOf(replies[..j + 1]) == PagesOf(replies[..j]) + if replies[j].Page? then [replies[j].keys] else []
    ensures PagesOf(replies[..j]) <= PagesOf(replies)
    ensures replies[j].Failure? ==> PagesOf(replies) == PagesOf(replies[..j])
  {
    if j > 0 {
      assert replies[..j][0] == replies[0];
      assert replies[1..][..j - 1] == replies[..j][1..] && replies[1..][..j] == replies[..j + 1][1..];
      PagesUpTo(replies[1..], j - 1);
    }
  }

  /**
   Sends DEL commands page by page until SCAN's cursor is back at zero, or something throws:
   a SCAN reply, or the DEL command number i when `fails(i)`.
  */
  method Clear(prefix: string, replies: seq<Reply>, fails: nat -> bool) returns (dels: seq<seq<string>>, ending: Ending)
    ensures prefix == [] ==> ending == Done && dels == []
    ensures Chunked(dels) && SentUntil(dels, fails, ending)
    ensures prefix != [] ==>
              var keys := AllMatching(prefix, PagesOf(replies));
              && Concat(dels) <= keys
              && (ending != DelFailed ==> Concat(dels) == keys && (ending == Done <==> NoFailure(replies)))
  {
    hide AllMatching, Concat, Matching, PagesOf, SentUntil, Chunked;
    dels, ending := [], Done;
    NothingSent(prefix, fails);
    if prefix == [] { return; }
    for j := 0 to |replies|
      invariant ending == Done && NoFailure(replies[..j])
      invariant Concat(dels) == AllMatching(prefix, PagesOf(replies[..j]))
      invariant SentUntil(dels, fails, Done) && Chunked(dels)
    {
      PagesUpTo(replies, j);
      if replies[j].Failure? {
        ending := ScanFailed;
        StoppedByScan(dels, fails);
        return;
      }
      var allKeys := KeysOfPage(prefix, replies[j].keys);
      AllMatchingAppend(prefix, PagesOf(replies[..j]), replies[j].keys);
      dels, ending := DeleteAll(allKeys, dels, fails);
      if ending == DelFailed {
        PrefixMatching(prefix, replies, j + 1);
        return;
      }
    }
    assert replies[..|replies|] == replies;
  }

  lemma NothingSent(prefix: string, fails: nat -> bool)
    ensures Concat([]) == AllMatching(prefix, PagesOf([])) && SentUntil([], fails, Done) && Chunked([])
  {
  }

  lemma StoppedByScan(dels: seq<seq<string>>, fails: nat -> bool)
    requires SentUntil(dels, fails, Done)
    ensures SentUntil(dels, fails, ScanFailed)
  {
  }

  lemma PrefixMatching(prefix: string, replies: seq<Reply>, j: nat)
    requires j <= |replies| && NoFailure(replies[..j])
    ensures AllMatching(prefix, PagesOf(replies[..j])) <= AllMatching(prefix, PagesOf(replies))
  {
    if j < |replies| { PagesUpTo(replies, j); } else { assert replies[..j] == replies; }
    MatchingOfPrefix(prefix, PagesOf(replies[..j]), PagesOf(replies));
  }

  lemma {:induction false} MatchingOfPrefix(prefix: string, some: seq<seq<string>>, all: seq<seq<string>>)
    requires some <= all
    ensures AllMatching(prefix, some) <= AllMatching(prefix, all)
    decreases |all|
  {
    if |some| < |all| {
      MatchingOfPrefix(prefix, some, all[..|all| - 1]);
    } else {
      assert some == all;
    }
  }

  lemma MatchingIs(prefix: string, page: seq<string>)
    ensures forall k :: k in Matching(prefix, page) <==> k in page && prefix <= k
    ensures forall a, b :: 0 <= a < b < |Matching(prefix, page)| ==> Matching(prefix, page)[a] != Matching(prefix, page)[b]
  {
  }

  /** clear() deletes exactly the returned keys that carry the prefix, whatever SCAN's MATCH did. */
  lemma {:induction false} ClearDeletesExactly(prefix: string, pages: seq<seq<string>>, key: string)
    ensures key in AllMatching(prefix, pages) <==> prefix <= key && exists page :: page in pages && key in page
    decreases |pages|
  {
    if pages != [] {
      var init, last := pages[..|pages| - 1], pages[|pages| - 1];
      assert pages == init + [last];
      assert forall page :: page in pages <==> page in init || page == last;
      ClearDeletesExactly(prefix, init, key);
      MatchingIs(prefix, last);
    }
  }

  function FirstIn(page: seq<string>, key: string): (i: nat)
    requires key in page
    ensures i < |page| && page[i] == key && key !in page[..i]
  {
    if page[0] == key then 0
    else
      var i := 1 + FirstIn(page[1..], key);
      assert page[..i] == [page[0]] + page[1..][..i - 1];
      i
  }

  /** The keys kept of a page stand in the order of their first appearance. */
  lemma {:induction false} MatchingKeepsOrder(prefix: string, page: seq<string>, x: nat, y: nat)
    requires x < y < |Matching(prefix, page)|
    ensures var m := Matching(prefix, page);
            m[x] in page && m[y] in page && FirstIn(page, m[x]) < FirstIn(page, m[y])
    decreases |page|
  {
    var m, init, last := Matching(prefix, page), page[..|page| - 1], page[|page| - 1];
    assert page == init + [last];
    MatchingIs(prefix, page);
    MatchingIs(prefix, init);
    var before := Matching(prefix, init);
    if y < |before| {
      MatchingKeepsOrder(prefix, init, x, y);
      FirstOfMore(init, last, m[x]);
      FirstOfMore(init, last, m[y]);
    } else {
      assert m[y] == last && m[x] == before[x] && m[x] in init;
      FirstOfMore(init, last, m[x]);
      assert last in before <==> last in init && prefix <= last;
      NotBefore(init, last);
    }
  }

  lemma {:induction false} FirstOfMore(init: seq<string>, last: string, key: string)
    requires key in init
    ensures key in init + [last] && FirstIn(init + [last], key) == FirstIn(init, key)
  {
    if init[0] != key {
      assert (init + [last])[1..] == init[1..] + [last];
      FirstOfMore(init[1..], last, key);
    }
  }

  lemma {:induction false} NotBefore(init: seq<string>, last: string)
    requires last !in init
    ensures last in init + [last] && FirstIn(init + [last], last) == |init|
  {
    if init != [] {
      assert (init + [last])[1..] == init[1..] + [last];
      NotBefore(init[1..], last);
    }
  }
}
