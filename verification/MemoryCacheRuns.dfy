/**
 Whole runs of the in-memory cache: it answers like a plain timed map that never
 sweeps, and an expired entry nobody touches is physically gone after a linear
 number of later writes.
*/
module MemoryCacheRuns {
  import opened MemoryCache
  import opened Numbers
  import opened Wrappers

  datatype Op<V> =
    | Get(key: string, now: int)
    | Set(key: string, value: V, ttl: Ttl, computedAt: int, now: int)
    | Delete(key: string)
    | Clear

  datatype Answer<V> = Got(rec: Option<Record<V>>) | Rejected(error: TtlError) | Done

  // ------------------------------------------------------------ the two machines

  function Step<V>(st: State<V>, op: Op<V>): (State<V>, Answer<V>)
    requires Valid(st)
  {
    match op
    case Get(key, now) => var r := GetStep(st, key, now); (r.0, Got(r.1))
    case Set(key, value, ttl, computedAt, now) =>
      (match CacheExpiresAt(ttl, computedAt)
       case Err(e) => (st, Rejected(e))
       case Ok(expiresAt) => (StoreStep(st, key, Record(value, expiresAt), now), Done))
    case Delete(key) => (DeleteStep(st, key), Done)
    case Clear => (ClearStep(st), Done)
  }

  /** The abstract cache: deadlines are only looked at when a key is read. */
  type TimedMap<V> = map<string, Record<V>>

  function Visible<V>(rec: Option<Record<V>>, now: int): Option<Record<V>> {
    if rec.Some? && now < rec.value.expiresAt then rec else None
  }

  function At<V>(m: TimedMap<V>, key: string): Option<Record<V>> {
    if key in m then Some(m[key]) else None
  }

  function TimedStep<V>(m: TimedMap<V>, op: Op<V>): (TimedMap<V>, Answer<V>) {
    match op
    case Get(key, now) => (m, Got(Visible(At(m, key), now)))
    case Set(key, value, ttl, computedAt, now) =>
      (match CacheExpiresAt(ttl, computedAt)
       case Err(e) => (m, Rejected(e))
       case Ok(expiresAt) => (m[key := Record(value, expiresAt)], Done))
    case Delete(key) => (m - {key}, Done)
    case Clear => (map[], Done)
  }

  // ----------------------------------------------------------------- the clock

  /** The clock never runs backwards between the reads that `op` makes after `from`. */
  predicate ClockFrom<V>(from: int, op: Op<V>) {
    match op
    case Get(_, now) => from <= now
    case Set(_, _, _, computedAt, now) => from <= computedAt <= now
    case _ => true
  }

  function ClockAfter<V>(from: int, op: Op<V>): int {
    match op
    case Get(_, now) => now
    case Set(_, _, _, _, now) => now
    case _ => from
  }

  predicate Monotone<V>(from: int, ops: seq<Op<V>>)
    decreases |ops|
  {
    ops == [] || (ClockFrom(from, ops[0]) && Monotone(ClockAfter(from, ops[0]), ops[1..]))
  }

  // --------------------------------------------------------------- answers agree

  /** Nobody reading at `now` or later can tell the cache from the timed map. */
  ghost predicate Agrees<V>(st: State<V>, m: TimedMap<V>, now: int) {
    Valid(st) && forall k :: Visible(Lookup(st.entries, k), now) == Visible(At(m, k), now)
  }

  lemma VisibleLater<V>(a: Option<Record<V>>, b: Option<Record<V>>, t: int, u: int)
    requires t <= u && Visible(a, t) == Visible(b, t)
    ensures Visible(a, u) == Visible(b, u)
  {
  }

  lemma ExpireKeepsVisible<V>(s: seq<Slot<V>>, i: nat, now: int, k: string)
    requires Unique(s) && i < |s| && s[i].Entry?
    ensures Unique(Expire(s, i, now))
    ensures Visible(Lookup(Expire(s, i, now), k), now) == Visible(Lookup(s, k), now)
  {
    if now >= s[i].rec.expiresAt {
      LookupEmptied(s, i, k);
      LookupIs(s, i);
    }
  }

  /** A sweep drops nothing that is still visible, wherever its cursor stands. */
  lemma {:induction false} SweepKeepsVisible<V>(s: seq<Slot<V>>, c: nat, now: int, budget: nat, k: string)
    requires Unique(s) && c <= |s|
    ensures Valid(SweepFrom(s, c, now, budget))
    ensures Visible(Lookup(SweepFrom(s, c, now, budget).entries, k), now) == Visible(Lookup(s, k), now)
    decreases budget
  {
    hide Lookup, Visible, Unique;
    var i := Next(s, c);
    if budget > 0 && i < |s| {
      ExpireKeepsVisible(s, i, now, k);
      SweepKeepsVisible(Expire(s, i, now), i + 1, now, budget - 1, k);
    }
  }

  lemma SweepAgrees<V>(st: State<V>, now: int, k: string)
    requires Valid(st)
    ensures Valid(Sweep(st, now))
    ensures Visible(Lookup(Sweep(st, now).entries, k), now) == Visible(Lookup(st.entries, k), now)
  {
    if Count(st.entries) != 0 {
      SweepKeepsVisible(st.entries, if st.cursor.Some? then st.cursor.value else 0, now, SWEEP_BATCH_SIZE, k);
    }
  }

  lemma StoreAgrees<V>(st: State<V>, key: string, rec: Record<V>, now: int, k: string)
    requires Valid(st)
    ensures Valid(StoreStep(st, key, rec, now))
    ensures Visible(Lookup(StoreStep(st, key, rec, now).entries, k), now)
         == if k == key then Visible(Some(rec), now) else Visible(Lookup(st.entries, k), now)
  {
    SweepAgrees(st, now, k);
    var swept := Sweep(st, now);
    LookupRemove(swept.entries, key, k);
    LookupPut(swept.entries, key, rec, k);
  }

  /** One operation gives the same answer on both machines and keeps them in agreement. */
  lemma StepAgrees<V>(st: State<V>, m: TimedMap<V>, from: int, op: Op<V>)
    requires Agrees(st, m, from) && ClockFrom(from, op)
    ensures Step(st, op).1 == TimedStep(m, op).1
    ensures Agrees(Step(st, op).0, TimedStep(m, op).0, ClockAfter(from, op))
  {
    var st', m', now := Step(st, op).0, TimedStep(m, op).0, ClockAfter(from, op);
    match op {
      case Get(key, t) =>
        VisibleLater(Lookup(st.entries, key), At(m, key), from, t);
        LookupRemove(st.entries, key, key);
      case Set(key, value, ttl, computedAt, t) =>
        match CacheExpiresAt(ttl, computedAt) {
          case Err(e) =>
          case Ok(e) => StoreAgrees(st, key, Record(value, e), t, key);
        }
      case Delete(key) => LookupRemove(st.entries, key, key);
      case Clear =>
    }
    forall k ensures Visible(Lookup(st'.entries, k), now) == Visible(At(m', k), now) {
      VisibleLater(Lookup(st.entries, k), At(m, k), from, now);
      match op {
        case Get(key, t) => LookupRemove(st.entries, key, k);
        case Set(key, value, ttl, computedAt, t) =>
          match CacheExpiresAt(ttl, computedAt) {
            case Err(e) =>
            case Ok(e) => StoreAgrees(st, key, Record(value, e), t, k);
          }
        case Delete(key) => LookupRemove(st.entries, key, k);
        case Clear =>
      }
    }
  }

  lemma StepValid<V>(st: State<V>, op: Op<V>)
    requires Valid(st)
    ensures Valid(Step(st, op).0)
  {
    match op {
      case Get(key, _) => LookupRemove(st.entries, key, key);
      case Set(key, value, ttl, computedAt, now) =>
        match CacheExpiresAt(ttl, computedAt) {
          case Err(e) =>
          case Ok(e) => StoreAgrees(st, key, Record(value, e), now, key);
        }
      case Delete(key) => LookupRemove(st.entries, key, key);
      case Clear =>
    }
  }

  /** Final state and answers of a whole run of the cache. */
  ghost function Run<V>(st: State<V>, ops: seq<Op<V>>): (State<V>, seq<Answer<V>>)
    requires Valid(st)
    decreases |ops|
  {
    if ops == [] then (st, [])
    else
      StepValid(st, ops[0]);
      var (st', a) := Step(st, ops[0]);
      var (st'', as') := Run(st', ops[1..]);
      (st'', [a] + as')
  }

  function TimedRun<V>(m: TimedMap<V>, ops: seq<Op<V>>): (TimedMap<V>, seq<Answer<V>>)
    decreases |ops|
  {
    if ops == [] then (m, [])
    else
      var (m', a) := TimedStep(m, ops[0]);
      var (m'', as') := TimedRun(m', ops[1..]);
      (m'', [a] + as')
  }

  /**
   Refinement. From any cache state that agrees with a timed map, wherever the sweep
   cursor was left, every run gives exactly the timed map's answers.
   */
  lemma {:induction false} CacheRefinesTimedMap<V>(st: State<V>, m: TimedMap<V>, from: int, ops: seq<Op<V>>)
    requires Agrees(st, m, from) && Monotone(from, ops)
    ensures Run(st, ops).1 == TimedRun(m, ops).1
    decreases |ops|
  {
    if ops != [] {
      StepAgrees(st, m, from, ops[0]);
      CacheRefinesTimedMap(Step(st, ops[0]).0, TimedStep(m, ops[0]).0, ClockAfter(from, ops[0]), ops[1..]);
    }
  }

  /** In particular a fresh adapter is the empty timed map. */
  lemma FreshCacheRefinesTimedMap<V>(from: int, ops: seq<Op<V>>)
    requires Monotone(from, ops)
    ensures Run(State<V>.State([], None), ops).1 == TimedRun(map[], ops).1
  {
    CacheRefinesTimedMap(State<V>.State([], None), map[], from, ops);
  }

  // ------------------------------------------------------- reclamation bound

  lemma CountSplit<V>(s: seq<Slot<V>>, lo: nat, mid: nat, hi: nat)
    requires lo <= mid <= hi <= |s|
    ensures CountIn(s, lo, hi) == CountIn(s, lo, mid) + CountIn(s, mid, hi)
    decreases mid - lo
  {
    if lo < mid {
      CountSplit(s, lo + 1, mid, hi);
    }
  }

  lemma CountFewer<V>(s: seq<Slot<V>>, t: seq<Slot<V>>, lo: nat, hi: nat)
    requires lo <= hi <= |s| && hi <= |t|
    requires forall i :: lo <= i < hi && t[i].Entry? ==> s[i].Entry?
    ensures CountIn(t, lo, hi) <= CountIn(s, lo, hi)
    decreases hi - lo
  {
    if lo < hi {
      CountFewer(s, t, lo + 1, hi);
    }
  }

  lemma CountSame<V>(s: seq<Slot<V>>, t: seq<Slot<V>>, lo: nat, hi: nat)
    requires lo <= hi <= |s| && hi <= |t|
    requires forall i :: lo <= i < hi ==> t[i] == s[i]
    ensures CountIn(t, lo, hi) == CountIn(s, lo, hi)
  {
    CountFewer(s, t, lo, hi);
    CountFewer(t, s, lo, hi);
  }

  /** Skipping to the iterator's next entry accounts for exactly one live slot. */
  lemma CountNext<V>(s: seq<Slot<V>>, c: nat, hi: nat)
    requires c <= hi <= |s|
    ensures Next(s, c) < hi ==> CountIn(s, c, hi) == 1 + CountIn(s, Next(s, c) + 1, hi)
    ensures Next(s, c) >= hi ==> CountIn(s, c, hi) == 0
    decreases hi - c
  {
    if c < hi && s[c].Empty? {
      CountNext(s, c + 1, hi);
    }
  }

  /** A sweep leaves everything behind its cursor alone. */
  lemma SweepFrame<V>(s: seq<Slot<V>>, c: nat, now: int, budget: nat)
    requires c <= |s|
    ensures var t := SweepFrom(s, c, now, budget).entries;
            |t| == |s| && forall i :: 0 <= i < c ==> t[i] == s[i]
    decreases budget
  {
    var i := Next(s, c);
    if budget > 0 && i < |s| {
      SweepFrame(Expire(s, i, now), i + 1, now, budget - 1);
    }
  }

  /** An expired slot ahead of the cursor is emptied, or the cursor comes `budget` entries closer. */
  lemma {:induction false} SweepAhead<V>(s: seq<Slot<V>>, c: nat, now: int, budget: nat, q: nat)
    requires c <= q < |s| && s[q].Entry? && now >= s[q].rec.expiresAt
    ensures var st, ahead := SweepFrom(s, c, now, budget), CountIn(s, c, q + 1);
            && |st.entries| == |s|
            && (ahead <= budget ==> st.entries[q].Empty?)
            && (ahead > budget ==>
                  && st.entries[q] == s[q]
                  && st.cursor.Some? && st.cursor.value <= q
                  && CountIn(st.entries, st.cursor.value, q + 1) == ahead - budget)
    decreases budget
  {
    hide SweepFrom, CountIn, Next;
    CountNext(s, c, q + 1);
    SweepOne(s, c, now, budget);
    var i := Next(s, c);
    assert i <= q by { FoundBy(s, c, q); }
    if budget > 0 {
      var s' := Expire(s, i, now);
      if i == q {
        CountNone(s, q + 1);
        SweepFrame(s', i + 1, now, budget - 1);
      } else {
        CountSame(s, s', i + 1, q + 1);
        SweepAhead(s', i + 1, now, budget - 1, q);
      }
    }
  }

  lemma FoundBy<V>(s: seq<Slot<V>>, c: nat, q: nat)
    requires c <= q < |s| && s[q].Entry?
    ensures Next(s, c) <= q
  {
  }

  lemma CountNone<V>(s: seq<Slot<V>>, lo: nat)
    requires lo <= |s|
    ensures CountIn(s, lo, lo) == 0
  {
  }

  /** Past its target the cursor runs off the end, or consumes `budget` of the remaining entries. */
  lemma {:induction false} SweepPast<V>(s: seq<Slot<V>>, c: nat, now: int, budget: nat)
    requires c <= |s|
    ensures var st, rest := SweepFrom(s, c, now, budget), CountIn(s, c, |s|);
            && |st.entries| == |s|
            && (rest < budget ==> st.cursor.None?)
            && (rest >= budget ==>
                  && st.cursor.Some? && c <= st.cursor.value <= |s|
                  && CountIn(st.entries, st.cursor.value, |s|) == rest - budget)
    decreases budget
  {
    CountNext(s, c, |s|);
    var i := Next(s, c);
    if budget > 0 && i < |s| {
      var s' := Expire(s, i, now);
      CountSame(s, s', i + 1, |s|);
      SweepPast(s', i + 1, now, budget - 1);
    }
  }

  function Sixteenths(n: nat): nat { (n + 15) / 16 }

  /** Where the next sweep starts. */
  function Cursor<V>(st: State<V>): nat {
    if st.cursor.Some? then st.cursor.value else 0
  }

  /**
   Upper bound on the sweeps before the one that empties slot `q`, counting that one,
   when `extra` entries are about to be appended. A full lap advances by only 15 entries
   a write, because the write itself may append one.
   */
  function SweepsLeft<V>(st: State<V>, q: nat, extra: nat): nat
    requires q < |st.entries| && Cursor(st) <= |st.entries|
  {
    var s, c := st.entries, Cursor(st);
    if c <= q then Sixteenths(CountIn(s, c, q + 1))
    else (CountIn(s, c, |s|) + extra) / 15 + 1 + Sixteenths(CountIn(s, 0, q + 1))
  }

  /** Slot `q` still holds the record it held in `before`. */
  ghost predicate Kept<V>(before: State<V>, after: State<V>, q: nat)
    requires q < |before.entries|
  {
    q < |after.entries| && after.entries[q] == before.entries[q]
  }

  lemma SweepShrinks<V>(st: State<V>, q: nat, now: int)
    requires Valid(st) && q < |st.entries| && st.entries[q].Entry? && now >= st.entries[q].rec.expiresAt
    ensures var st' := Sweep(st, now);
            && |st'.entries| == |st.entries|
            && (st'.entries[q].Empty? || st'.entries[q] == st.entries[q])
            && Cursor(st') <= |st'.entries|
            && (Kept(st, st', q) ==> SweepsLeft(st', q, 1) < SweepsLeft(st, q, 0))
  {
    hide SweepFrom, CountIn, Lookup, Next;
    var s, c := st.entries, Cursor(st);
    CountNext(s, 0, q + 1);
    FoundBy(s, 0, q);
    CountSplit(s, 0, q + 1, |s|);
    var st' := SweepFrom(s, c, now, SWEEP_BATCH_SIZE);
    assert Sweep(st, now) == st';
    SweepAgrees(st, now, s[q].key);
    if c <= q {
      SweepAhead(s, c, now, SWEEP_BATCH_SIZE, q);
    } else {
      SweepPast(s, c, now, SWEEP_BATCH_SIZE);
      SweepFrame(s, c, now, SWEEP_BATCH_SIZE);
      CountSame(s, st'.entries, 0, q + 1);
    }
  }

  /** Emptying or refilling a slot other than `q` never adds to the sweeps left. */
  lemma OtherSlotShrinks<V>(st: State<V>, t: seq<Slot<V>>, q: nat, extra: nat)
    requires q < |st.entries| == |t| && Cursor(st) <= |t|
    requires forall i :: 0 <= i < |t| && t[i].Entry? ==> st.entries[i].Entry?
    ensures SweepsLeft(st.(entries := t), q, extra) <= SweepsLeft(st, q, extra)
  {
    var s, c := st.entries, Cursor(st);
    if c <= q {
      CountFewer(s, t, c, q + 1);
    } else {
      CountFewer(s, t, c, |s|);
      CountFewer(s, t, 0, q + 1);
    }
  }

  lemma RemoveKeeps<V>(st: State<V>, key: string, q: nat)
    requires Valid(st) && q < |st.entries| && st.entries[q].Entry? && key != st.entries[q].key
    ensures Kept(st, DeleteStep(st, key), q)
    ensures SweepsLeft(DeleteStep(st, key), q, 0) <= SweepsLeft(st, q, 0)
  {
    OtherSlotShrinks(st, Remove(st.entries, key), q, 0);
  }

  /** Appending uses up the room that was set aside for it. */
  lemma AppendFits<V>(st: State<V>, e: Slot<V>, q: nat)
    requires q < |st.entries| && Cursor(st) <= |st.entries|
    ensures SweepsLeft(st.(entries := st.entries + [e]), q, 0) <= SweepsLeft(st, q, 1)
  {
    var s, t, c := st.entries, st.entries + [e], Cursor(st);
    if c <= q {
      CountSame(s, t, c, q + 1);
    } else {
      CountSplit(t, c, |s|, |t|);
      CountSame(s, t, c, |s|);
      CountSame(s, t, 0, q + 1);
    }
  }

  /** Each write to another key brings an expired slot one step closer to removal. */
  lemma WriteShrinks<V>(st: State<V>, key: string, rec: Record<V>, now: int, q: nat)
    requires Valid(st) && q < |st.entries| && st.entries[q].Entry?
    requires key != st.entries[q].key && now >= st.entries[q].rec.expiresAt
    ensures var st' := StoreStep(st, key, rec, now);
            && Valid(st') && |st'.entries| >= |st.entries|
            && (st'.entries[q].Empty? || Kept(st, st', q))
            && (Kept(st, st', q) ==> SweepsLeft(st', q, 0) < SweepsLeft(st, q, 0))
  {
    StoreAgrees(st, key, rec, now, key);
    SweepAgrees(st, now, key);
    SweepShrinks(st, q, now);
    var mid, t := Sweep(st, now), StoreStep(st, key, rec, now).entries;
    if Kept(st, mid, q) {
      if |t| == |mid.entries| {
        OtherSlotShrinks(mid, t, q, 0);
      } else {
        AppendFits(mid, Entry(key, rec), q);
      }
    }
  }

  /** Nobody writes `key`, and every other write happens once `deadline` has passed. */
  predicate LeavesExpired<V>(ops: seq<Op<V>>, key: string, deadline: int) {
    forall i :: 0 <= i < |ops| && ops[i].Set? ==> ops[i].key != key && ops[i].now >= deadline
  }

  /** The writes that pass TTL validation; a rejected call does not sweep. */
  function Writes<V>(ops: seq<Op<V>>): nat {
    if ops == [] then 0
    else
      var accepted := ops[0].Set? && CacheExpiresAt(ops[0].ttl, ops[0].computedAt).Ok?;
      (if accepted then 1 else 0) + Writes(ops[1..])
  }

  /** A key that is gone and not written again stays gone. */
  lemma {:induction false} StaysAbsent<V>(st: State<V>, ops: seq<Op<V>>, key: string, deadline: int)
    requires Valid(st) && Lookup(st.entries, key).None? && LeavesExpired(ops, key, deadline)
    ensures Lookup(Run(st, ops).0.entries, key).None?
    decreases |ops|
  {
    if ops != [] {
      StepValid(st, ops[0]);
      StepAbsent(st, ops[0], key);
      StaysAbsent(Step(st, ops[0]).0, ops[1..], key, deadline);
    }
  }

  lemma {:induction false} SweepAbsent<V>(s: seq<Slot<V>>, c: nat, now: int, budget: nat, key: string)
    requires Unique(s) && c <= |s| && Lookup(s, key).None?
    ensures Lookup(SweepFrom(s, c, now, budget).entries, key).None?
    decreases budget
  {
    var i := Next(s, c);
    if budget > 0 && i < |s| {
      LookupEmptied(s, i, key);
      SweepAbsent(Expire(s, i, now), i + 1, now, budget - 1, key);
    }
  }

  lemma StepAbsent<V>(st: State<V>, op: Op<V>, key: string)
    requires Valid(st) && Lookup(st.entries, key).None? && (op.Set? ==> op.key != key)
    ensures Lookup(Step(st, op).0.entries, key).None?
  {
    match op {
      case Get(k, _) => LookupRemove(st.entries, k, key);
      case Set(k, value, ttl, computedAt, now) =>
        match CacheExpiresAt(ttl, computedAt) {
          case Err(e) =>
          case Ok(e) =>
            SweepAgrees(st, now, key);
            SweepAbsent(st.entries, if st.cursor.Some? then st.cursor.value else 0, now, SWEEP_BATCH_SIZE, key);
            LookupRemove(Sweep(st, now).entries, k, key);
            LookupPut(Sweep(st, now).entries, k, Record(value, e), key);
        }
      case Delete(k) => LookupRemove(st.entries, k, key);
      case Clear =>
    }
  }

  /** A write that empties slot `q` leaves no other record under its key. */
  lemma AbsentWhenEmptied<V>(st: State<V>, key: string, rec: Record<V>, now: int, q: nat)
    requires Valid(st) && q < |st.entries| && st.entries[q].Entry? && key != st.entries[q].key
    requires var t := StoreStep(st, key, rec, now).entries; q < |t| && t[q].Empty?
    ensures Lookup(StoreStep(st, key, rec, now).entries, st.entries[q].key).None?
  {
    var gone, s := st.entries[q].key, Sweep(st, now).entries;
    SweepAgrees(st, now, gone);
    if Count(st.entries) != 0 {
      SweepOnlyEmpties(st.entries, Cursor(st), now, SWEEP_BATCH_SIZE);
    }
    FindOnly(st.entries, s, q, gone);
    LookupRemove(s, key, gone);
    LookupPut(s, key, rec, gone);
  }

  lemma FindOnly<V>(s: seq<Slot<V>>, t: seq<Slot<V>>, q: nat, key: string)
    requires Unique(s) && |s| == |t| && q < |s| && Holds(s[q], key)
    requires forall i :: 0 <= i < |t| ==> t[i].Empty? || t[i] == s[i]
    ensures t[q].Empty? ==> Lookup(t, key).None?
  {
  }

  lemma SweepOnlyEmpties<V>(s: seq<Slot<V>>, c: nat, now: int, budget: nat)
    requires c <= |s|
    ensures var t := SweepFrom(s, c, now, budget).entries;
            |t| == |s| && forall i :: 0 <= i < |t| ==> t[i].Empty? || t[i] == s[i]
    decreases budget
  {
    var i := Next(s, c);
    if budget > 0 && i < |s| {
      SweepOnlyEmpties(Expire(s, i, now), i + 1, now, budget - 1);
    }
  }

  /** Enough writes after the deadline, whatever is interleaved with them, remove the entry. */
  lemma {:induction false} Reclaimed<V>(st: State<V>, q: nat, ops: seq<Op<V>>)
    requires Valid(st) && q < |st.entries| && st.entries[q].Entry?
    requires LeavesExpired(ops, st.entries[q].key, st.entries[q].rec.expiresAt)
    requires Writes(ops) >= SweepsLeft(st, q, 0)
    ensures Lookup(Run(st, ops).0.entries, st.entries[q].key).None?
    decreases |ops|
  {
    var s, key, deadline := st.entries, st.entries[q].key, st.entries[q].rec.expiresAt;
    SweepsLeftPositive(st, q);
    var op, rest := ops[0], ops[1..];
    StepValid(st, op);
    StepShrinks(st, op, q);
    var st' := Step(st, op).0;
    assert LeavesExpired(rest, key, deadline);
    if Kept(st, st', q) {
      Reclaimed(st', q, rest);
    } else {
      StaysAbsent(st', rest, key, deadline);
    }
  }

  lemma SweepsLeftPositive<V>(st: State<V>, q: nat)
    requires q < |st.entries| && Cursor(st) <= |st.entries| && st.entries[q].Entry?
    ensures SweepsLeft(st, q, 0) > 0
  {
    var c := Cursor(st);
    if c <= q {
      CountNext(st.entries, c, q + 1);
    }
  }

  /** One operation on an untouched expired slot: removed, or kept with its bound gone down. */
  lemma StepShrinks<V>(st: State<V>, op: Op<V>, q: nat)
    requires Valid(st) && q < |st.entries| && st.entries[q].Entry?
    requires op.Set? ==> op.key != st.entries[q].key && op.now >= st.entries[q].rec.expiresAt
    ensures var st' := Step(st, op).0;
            && Valid(st')
            && (!Kept(st, st', q) ==> Lookup(st'.entries, st.entries[q].key).None?)
            && (Kept(st, st', q) ==> SweepsLeft(st', q, 0) + Writes([op]) <= SweepsLeft(st, q, 0))
  {
    var s, key := st.entries, st.entries[q].key;
    StepValid(st, op);
    FindUnique(s, q);
    match op {
      case Get(k, now) =>
        LookupRemove(s, k, key);
        if k != key { RemoveKeeps(st, k, q); }
      case Set(k, value, ttl, computedAt, now) =>
        match CacheExpiresAt(ttl, computedAt) {
          case Err(e) =>
          case Ok(e) =>
            WriteShrinks(st, k, Record(value, e), now, q);
            if Step(st, op).0.entries[q].Empty? { AbsentWhenEmptied(st, k, Record(value, e), now, q); }
        }
      case Delete(k) =>
        LookupRemove(s, k, key);
        if k != key { RemoveKeeps(st, k, q); }
      case Clear =>
    }
  }

  /**
   Reclamation bound. In a store of n entries, an expired entry that is left untouched is
   physically removed within floor(n/15) + floor(n/16) + 2 accepted writes of other keys,
   wherever the cursor stands and although each write may append one more entry.
   */
  lemma ExpiredEntryReclaimed<V>(st: State<V>, key: string, rec: Record<V>, ops: seq<Op<V>>)
    requires Valid(st) && Lookup(st.entries, key) == Some(rec)
    requires LeavesExpired(ops, key, rec.expiresAt)
    requires var n := Count(st.entries); Writes(ops) >= n / 15 + n / 16 + 2
    ensures Lookup(Run(st, ops).0.entries, key).None?
  {
    hide Run, CountIn, Writes;
    var s, q, c := st.entries, Find(st.entries, key), Cursor(st);
    CountSplit(s, 0, q + 1, |s|);
    if c <= q {
      CountSplit(s, 0, c, q + 1);
    } else {
      CountSplit(s, q + 1, c, |s|);
    }
    Reclaimed(st, q, ops);
  }

  /** A deadline is the exact one rounded down to a millisecond, never before the present; zero expires at once. */
  lemma DeadlineIs(ttl: Ttl, now: int)
    ensures CacheExpiresAt(ttl, now).Ok? <==>
            ttl.Seconds? && ttl.s >= 0.0 && now as real + ttl.s * 1000.0 <= MAX_SAFE_INTEGER as real
    ensures CacheExpiresAt(ttl, now).Ok? ==>
              var deadline := CacheExpiresAt(ttl, now).value;
              now <= deadline && deadline as real <= now as real + ttl.s * 1000.0 < deadline as real + 1.0 &&
              (ttl.s == 0.0 ==> deadline == now)
  {
  }

  // ------------------------------------------------------------- places and batches

  /** Writing a key keeps its place, or takes the last one; removing it leaves its place empty; no other entry moves. */
  lemma PlacesAreKept<V>(s: seq<Slot<V>>, key: string, rec: Record<V>)
    ensures Find(Put(s, key, rec), key) == Find(s, key)
    ensures var i, put, left := Find(s, key), Put(s, key, rec), Remove(s, key);
            && |put| == (if i == |s| then |s| + 1 else |s|) && put[i] == Entry(key, rec)
            && |left| == |s| && (i < |s| ==> left[i] == Empty)
            && forall j :: 0 <= j < |s| && j != i ==> put[j] == s[j] && left[j] == s[j]
  {
    var i, t := Find(s, key), Put(s, key, rec);
    FindIs(t, key, i);
  }

  lemma {:induction false} FindIs<V>(s: seq<Slot<V>>, key: string, i: nat)
    requires i < |s| && Holds(s[i], key) && forall j :: 0 <= j < i ==> !Holds(s[j], key)
    ensures Find(s, key) == i
    decreases i
  {
    if i > 0 { FindIs(s[1..], key, i - 1); }
  }

  /** A sweep takes out expired entries only, and at most sixteen of them. */
  lemma SweepIsBounded<V>(st: State<V>, now: int)
    requires Valid(st)
    ensures var t := Sweep(st, now).entries;
            && |t| == |st.entries|
            && (forall i :: 0 <= i < |t| && t[i] != st.entries[i] ==>
                  t[i] == Empty && st.entries[i].Entry? && now >= st.entries[i].rec.expiresAt)
            && Count(st.entries) <= Count(t) + 16
  {
    hide SweepFrom, CountIn;
    SweepTakesExpired(st.entries, if st.cursor.Some? then st.cursor.value else 0, now, SWEEP_BATCH_SIZE);
  }

  lemma {:induction false} SweepTakesExpired<V>(s: seq<Slot<V>>, c: nat, now: int, budget: nat)
    requires c <= |s|
    ensures var t := SweepFrom(s, c, now, budget).entries;
            && |t| == |s|
            && (forall i :: 0 <= i < |s| && t[i] != s[i] ==> t[i] == Empty && s[i].Entry? && now >= s[i].rec.expiresAt)
            && CountIn(s, 0, |s|) <= CountIn(t, 0, |t|) + budget
    decreases budget
  {
    hide SweepFrom, CountIn, Next;
    SweepOne(s, c, now, budget);
    var i := Next(s, c);
    if budget > 0 && i < |s| {
      SweepTakesExpired(Expire(s, i, now), i + 1, now, budget - 1);
      OneFewer(s, Expire(s, i, now), i);
    }
  }

  lemma OneFewer<V>(s: seq<Slot<V>>, t: seq<Slot<V>>, i: nat)
    requires i < |s| && (t == s || t == s[i := Empty])
    ensures CountIn(s, 0, |s|) <= CountIn(t, 0, |t|) + 1
  {
    CountSplit(s, 0, i, |s|);
    CountSplit(t, 0, i, |t|);
    CountSame(s, t, 0, i);
    CountSame(s, t, i + 1, |s|);
  }

  /** A write whose deadline is not ahead leaves no entry for its key, and any other one leaves its own. */
  lemma WritesLeaveTheirEntry<V>(st: State<V>, key: string, rec: Record<V>, now: int)
    requires Valid(st)
    ensures Lookup(StoreStep(st, key, rec, now).entries, key) == if now < rec.expiresAt then Some(rec) else None
  {
    hide Sweep, Lookup, Put, Remove;
    var swept := Sweep(st, now);
    SweepStaysValid(st, now);
    LookupPut(swept.entries, key, rec, key);
    LookupRemove(swept.entries, key, key);
  }

  lemma SweepStaysValid<V>(st: State<V>, now: int)
    requires Valid(st)
    ensures Unique(Sweep(st, now).entries)
  {
    hide Sweep, Lookup;
    SweepAgrees(st, now, "");
  }
}
