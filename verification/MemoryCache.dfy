/**
 The in-memory TTL cache (src/core/cache.ts).

 A JavaScript Map is modelled by the entry list of ECMA-262 section 24.1: entries
 keep their insertion place, a replaced entry keeps its slot, a deleted one leaves
 an empty slot behind, and a live iterator is an index into that list.
*/
module MemoryCache {
  import opened Numbers
  import opened Wrappers

  const SWEEP_BATCH_SIZE: nat := 16

  /** One cached value with its absolute deadline in epoch milliseconds. */
  datatype Record<V> = Record(value: V, expiresAt: int)

  /** One element of the entry list. */
  datatype Slot<V> = Empty | Entry(key: string, rec: Record<V>)

  /** The adapter's two fields: the map and the retained sweep cursor. */
  datatype State<V> = State(entries: seq<Slot<V>>, cursor: Option<nat>)

  // ---------------------------------------------------------------- the Map

  predicate Holds<V>(slot: Slot<V>, key: string) {
    slot.Entry? && slot.key == key
  }

  /** First slot holding `key`, or `|s|` when there is none. */
  function Find<V>(s: seq<Slot<V>>, key: string): (i: nat)
    ensures i <= |s|
    ensures i < |s| ==> Holds(s[i], key)
    ensures forall j :: 0 <= j < i ==> !Holds(s[j], key)
  {
    if s == [] then 0 else if Holds(s[0], key) then 0 else 1 + Find(s[1..], key)
  }

  function Lookup<V>(s: seq<Slot<V>>, key: string): Option<Record<V>> {
    var i := Find(s, key);
    if i < |s| then Some(s[i].rec) else None
  }

  function Remove<V>(s: seq<Slot<V>>, key: string): seq<Slot<V>> {
    var i := Find(s, key);
    if i < |s| then s[i := Empty] else s
  }

  function Put<V>(s: seq<Slot<V>>, key: string, rec: Record<V>): seq<Slot<V>> {
    var i := Find(s, key);
    if i < |s| then s[i := Entry(key, rec)] else s + [Entry(key, rec)]
  }

  /** No key occupies two slots. */
  ghost predicate Unique<V>(s: seq<Slot<V>>) {
    forall i, j :: 0 <= i < j < |s| && s[i].Entry? && s[j].Entry? ==> s[i].key != s[j].key
  }

  /** The number of slots in use between `lo` and `hi`. */
  function CountIn<V>(s: seq<Slot<V>>, lo: nat, hi: nat): (n: nat)
    requires lo <= hi <= |s|
    decreases hi - lo
  {
    if lo == hi then 0 else (if s[lo].Entry? then 1 else 0) + CountIn(s, lo + 1, hi)
  }

  /** `Map.size`. */
  function Count<V>(s: seq<Slot<V>>): nat { CountIn(s, 0, |s|) }

  /** Where a live iterator standing at `c` finds its next entry; `|s|` when it is done. */
  function Next<V>(s: seq<Slot<V>>, c: nat): (i: nat)
    requires c <= |s|
    ensures c <= i <= |s|
    ensures i < |s| ==> s[i].Entry?
    ensures forall j :: c <= j < i ==> s[j].Empty?
    decreases |s| - c
  {
    if c == |s| || s[c].Entry? then c else Next(s, c + 1)
  }

  // ------------------------------------------------------- the adapter's steps

  function Expire<V>(s: seq<Slot<V>>, i: nat, now: int): seq<Slot<V>>
    requires i < |s| && s[i].Entry?
  {
    if now >= s[i].rec.expiresAt then s[i := Empty] else s
  }

  /** The state after inspecting at most `budget` further entries from `c`. */
  function SweepFrom<V>(s: seq<Slot<V>>, c: nat, now: int, budget: nat): State<V>
    requires c <= |s|
    decreases budget, |s|
  {
    if budget == 0 then State(s, Some(c))
    else
      var i := Next(s, c);
      if i == |s| then State(s, None)
      else SweepFrom(Expire(s, i, now), i + 1, now, budget - 1)
  }

  /** One turn of the sweep's loop. */
  lemma SweepOne<V>(s: seq<Slot<V>>, c: nat, now: int, budget: nat)
    requires c <= |s|
    ensures SweepFrom(s, c, now, budget)
         == if budget == 0 then State(s, Some(c))
            else if Next(s, c) == |s| then State(s, None)
            else SweepFrom(Expire(s, Next(s, c), now), Next(s, c) + 1, now, budget - 1)
  {
  }

  ghost predicate Valid<V>(st: State<V>) {
    && Unique(st.entries)
    && (st.cursor.Some? ==> st.cursor.value <= |st.entries|)
  }

  function Sweep<V>(st: State<V>, now: int): State<V>
    requires Valid(st)
  {
    if Count(st.entries) == 0 then State(st.entries, None)
    else SweepFrom(st.entries, if st.cursor.Some? then st.cursor.value else 0, now, SWEEP_BATCH_SIZE)
  }

  /** A TTL argument: a JavaScript number of seconds. */
  datatype Ttl = NotFinite | Seconds(s: real)

  datatype TtlError = InvalidTtl | TtlTooLarge

  /** Absolute deadline of a TTL measured at `now`, or the validation error. */
  function CacheExpiresAt(ttl: Ttl, now: int): Result<int, TtlError> {
    if ttl.NotFinite? || ttl.s < 0.0 then Err(InvalidTtl)
    else
      var ms := ttl.s * 1000.0;
      if now as real + ms > MAX_SAFE_INTEGER as real then Err(TtlTooLarge) else Ok(now + ms.Floor)
  }

  function GetStep<V>(st: State<V>, key: string, now: int): (State<V>, Option<Record<V>>) {
    match Lookup(st.entries, key)
    case None => (st, None)
    case Some(rec) =>
      if now >= rec.expiresAt then (st.(entries := Remove(st.entries, key)), None) else (st, Some(rec))
  }

  /** Everything `set` does once the deadline is known: sweep, then write or drop the key. */
  function StoreStep<V>(st: State<V>, key: string, rec: Record<V>, now: int): State<V>
    requires Valid(st)
  {
    var swept := Sweep(st, now);
    if rec.expiresAt <= now then swept.(entries := Remove(swept.entries, key))
    else swept.(entries := Put(swept.entries, key, rec))
  }

  function DeleteStep<V>(st: State<V>, key: string): State<V> {
    st.(entries := Remove(st.entries, key))
  }

  function ClearStep<V>(st: State<V>): State<V> {
    State([], None)
  }

  // ------------------------------------------------------------ the class

  class MemoryCacheAdapter<V(==)> {
    var store: seq<Slot<V>>
    var sweepCursor: Option<nat>

    ghost function View(): State<V>
      reads this
    {
      State(store, sweepCursor)
    }

    constructor ()
      ensures View() == State([], None) && Valid(View())
    {
      store, sweepCursor := [], None;
    }

    method SweepExpired(now: int)
      requires Valid(View())
      modifies this
      ensures View() == Sweep(old(View()), now)
    {
      hide SweepFrom, CountIn;
      if Count(store) == 0 {
        sweepCursor := None;
        return;
      }
      var cursor := if sweepCursor.Some? then sweepCursor.value else 0;
      sweepCursor := Some(cursor);
      var inspected: nat := 0;
      while inspected < SWEEP_BATCH_SIZE
        invariant inspected <= SWEEP_BATCH_SIZE && cursor <= |store| && Unique(store)
        invariant sweepCursor == Some(cursor)
        invariant Sweep(old(View()), now) == SweepFrom(store, cursor, now, SWEEP_BATCH_SIZE - inspected)
      {
        SweepOne(store, cursor, now, SWEEP_BATCH_SIZE - inspected);
        var next := Next(store, cursor);
        if next == |store| {
          sweepCursor := None;
          return;
        }
        cursor := next + 1;
        sweepCursor := Some(cursor);
        var key, observed := store[next].key, store[next].rec;
        // The record is read again before it is dropped.
        FindUnique(store, next);
        var current := Lookup(store, key);
        if current == Some(observed) && now >= observed.expiresAt {
          store := Remove(store, key);
        }
        inspected := inspected + 1;
      }
      SweepOne(store, cursor, now, 0);
    }

    method Get(key: string, now: int) returns (r: Option<Record<V>>)
      modifies this
      ensures (View(), r) == GetStep(old(View()), key, now)
    {
      var rec := Lookup(store, key);
      if rec == None {
        return None;
      }
      if now >= rec.value.expiresAt {
        store := Remove(store, key);
        return None;
      }
      return rec;
    }

    /** `computedAt` and `now` are the two clock reads of one call. */
    method Set(key: string, value: V, ttl: Ttl, computedAt: int, now: int) returns (r: Result<(), TtlError>)
      requires Valid(View())
      modifies this
      ensures match CacheExpiresAt(ttl, computedAt)
              case Err(e) => r == Err(e) && View() == old(View())
              case Ok(expiresAt) =>
                r == Ok(()) && View() == StoreStep(old(View()), key, Record(value, expiresAt), now)
    {
      var deadline := CacheExpiresAt(ttl, computedAt);
      if deadline.Err? {
        return Err(deadline.error);
      }
      SweepExpired(now);
      if deadline.value <= now {
        store := Remove(store, key);
      } else {
        store := Put(store, key, Record(value, deadline.value));
      }
      return Ok(());
    }

    method Delete(key: string)
      modifies this
      ensures View() == DeleteStep(old(View()), key)
    {
      store := Remove(store, key);
    }

    method Clear()
      modifies this
      ensures View() == ClearStep(old(View()))
    {
      store := [];
      sweepCursor := None;
    }
  }

  // ------------------------------------------------------- facts about the Map

  lemma FindUnique<V>(s: seq<Slot<V>>, i: nat)
    requires Unique(s) && i < |s| && s[i].Entry?
    ensures Find(s, s[i].key) == i
  {
  }

  lemma LookupIs<V>(s: seq<Slot<V>>, i: nat)
    requires Unique(s) && i < |s| && s[i].Entry?
    ensures Lookup(s, s[i].key) == Some(s[i].rec)
  {
  }

  lemma LookupEmptied<V>(s: seq<Slot<V>>, i: nat, k: string)
    requires Unique(s) && i < |s| && s[i].Entry?
    ensures Unique(s[i := Empty])
    ensures Lookup(s[i := Empty], k) == if k == s[i].key then None else Lookup(s, k)
  {
    var t := s[i := Empty];
    var j, m := Find(t, k), Find(s, k);
    assert m < |s| && m != i ==> Holds(t[m], k);
    if j < |t| {
      assert Holds(s[j], k);
      FindUnique(s, j);
    }
  }

  lemma LookupRemove<V>(s: seq<Slot<V>>, key: string, k: string)
    requires Unique(s)
    ensures Unique(Remove(s, key))
    ensures Lookup(Remove(s, key), k) == if k == key then None else Lookup(s, k)
  {
    var i := Find(s, key);
    if i < |s| {
      LookupEmptied(s, i, k);
    }
  }

  lemma LookupPut<V>(s: seq<Slot<V>>, key: string, rec: Record<V>, k: string)
    requires Unique(s)
    ensures Unique(Put(s, key, rec))
    ensures Lookup(Put(s, key, rec), k) == if k == key then Some(rec) else Lookup(s, k)
  {
    var t, i := Put(s, key, rec), Find(s, key);
    assert Unique(t) by {
      forall a, b | 0 <= a < b < |t| && t[a].Entry? && t[b].Entry?
        ensures t[a].key != t[b].key
      {
        if i < |s| {
          assert s[a].Entry? && s[b].Entry? && s[a].key == t[a].key && s[b].key == t[b].key;
        } else if b == |s| {
          assert !Holds(s[a], key);
        }
      }
    }
    var j, m := Find(t, k), Find(s, k);
    assert m < |s| ==> Holds(t[m], k);
    if k == key {
      assert Holds(t[i], k);
      FindUnique(t, i);
    } else if j < |t| {
      assert j < |s| && Holds(s[j], k);
      FindUnique(s, j);
    }
  }
}
