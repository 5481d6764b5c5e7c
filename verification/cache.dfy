/**
 * The two in-memory listing caches of the dashboard: one entry for the root
 * listing and one per folder, each stamped with the time it was written and
 * trusted for the optimistic render for 30 seconds.
 */
module Cache {
  import opened Wrappers
  import opened Items

  /** How long an entry may feed the optimistic render, in milliseconds. */
  const CacheTtlMs: int := 30000

  /** A cached listing: when it was written (`Date.now()`) and the unsorted items. */
  datatype Entry = Entry(time: int, items: seq<Item>)

  /** An entry is fresh while strictly less than the TTL has elapsed. */
  predicate IsFresh(e: Entry, now: int) {
    now - e.time < CacheTtlMs
  }

  /** The items an optimistic render may use: those of a present, fresh entry. */
  function FreshItems(e: Option<Entry>, now: int): (r: Option<seq<Item>>)
    ensures r.Some? <==> e.Some? && now < e.value.time + CacheTtlMs
    ensures r.Some? ==> r.value == e.value.items
  {
    if e.Some? && IsFresh(e.value, now) then Some(e.value.items) else None
  }

  /**
   * The TTL boundary: an entry written at `t` is used up to `t + 29999` and is
   * never used again from `t + 30000` on.
   */
  lemma FreshnessWindow(t: int, items: seq<Item>, now: int)
    ensures FreshItems(Some(Entry(t, items)), now) == (if now <= t + CacheTtlMs - 1 then Some(items) else None)
    ensures now >= t + CacheTtlMs ==> forall later | later >= now :: FreshItems(Some(Entry(t, items)), later).None?
  {
  }

  /** Per-folder cache, keyed like the JavaScript `Map`: the key may be `null`. */
  type FolderCache = map<Option<string>, Entry>

  function Lookup(c: FolderCache, key: Option<string>): Option<Entry> {
    if key in c then Some(c[key]) else None
  }

  /** `Map.prototype.set`. */
  function Put(c: FolderCache, key: Option<string>, e: Entry): (r: FolderCache)
    ensures Lookup(r, key) == Some(e)
    ensures forall k | k != key :: Lookup(r, k) == Lookup(c, k)
    ensures r.Keys == c.Keys + {key}
  {
    c[key := e]
  }

  /** `Map.prototype.delete`. */
  function Invalidate(c: FolderCache, key: Option<string>): (r: FolderCache)
    ensures Lookup(r, key) == None
    ensures forall k | k != key :: Lookup(r, k) == Lookup(c, k)
    ensures r.Keys == c.Keys - {key}
  {
    c - {key}
  }
}
