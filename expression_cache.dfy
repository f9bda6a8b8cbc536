/**
 * `context/ExpressionContext.tsx`: per-filter restoration data for the
 * expression list — how many pages were loaded and where the list was
 * scrolled.  The updaters are pure functions of the previous cache; the
 * provider applies them to its cache state.
 */
module ExpressionCache {
  import opened Common

  datatype ExpressionState = ExpressionState(size: int, scrollPosition: real)

  type Cache = map<string, ExpressionState>

  function Abs(x: real): real {
    if x < 0.0 then -x else x
  }

  /** `setCache`'s updater. */
  function SetCache(prev: Cache, key: string, state: ExpressionState): (r: Cache)
    ensures key in r && r[key] == state
    ensures forall k :: k != key ==> (k in r <==> k in prev) && (k in prev ==> r[k] == prev[k])
  {
    prev[key := state]
  }

  /** `updateCacheData`'s updater. */
  function UpdateCacheData(prev: Cache, key: string, size: int): Cache {
    var currentScroll := if key in prev then prev[key].scrollPosition else 0.0;
    if key in prev && prev[key].size == size then prev
    else prev[key := ExpressionState(size, currentScroll)]
  }

  /** `updateScrollPosition`'s updater. */
  function UpdateScrollPosition(prev: Cache, key: string, position: real): Cache {
    if key !in prev then prev[key := ExpressionState(1, position)]
    else if Abs(prev[key].scrollPosition - position) < 1.0 then prev
    else prev[key := prev[key].(scrollPosition := position)]
  }

  /** An unchanged size is a no-op; otherwise the size is set, the scroll
    * position kept (0 for a new key), and no other key changes. */
  lemma UpdateCacheDataSpec(prev: Cache, key: string, size: int)
    ensures key in prev && prev[key].size == size ==> UpdateCacheData(prev, key, size) == prev
    ensures var r := UpdateCacheData(prev, key, size);
      key in r && r[key].size == size
      && r[key].scrollPosition == (if key in prev then prev[key].scrollPosition else 0.0)
      && forall k :: k != key ==> (k in r <==> k in prev) && (k in prev ==> r[k] == prev[k])
  {
  }

  /** A missing key starts at one page; a move of less than one pixel is
    * ignored; otherwise only the position changes. */
  lemma UpdateScrollPositionSpec(prev: Cache, key: string, position: real)
    ensures key !in prev ==> UpdateScrollPosition(prev, key, position) == prev[key := ExpressionState(1, position)]
    ensures key in prev && -1.0 < prev[key].scrollPosition - position < 1.0 ==>
      UpdateScrollPosition(prev, key, position) == prev
    ensures var r := UpdateScrollPosition(prev, key, position);
      key in r
      && (key in prev ==> r[key].size == prev[key].size)
      && ((key in prev && Abs(prev[key].scrollPosition - position) >= 1.0) ==> r[key].scrollPosition == position)
      && forall k :: k != key ==> (k in r <==> k in prev) && (k in prev ==> r[k] == prev[k])
  {
  }

  /** Updating the position to where it already is changes nothing. */
  lemma ScrollPositionIdempotent(prev: Cache, key: string, position: real)
    ensures var r := UpdateScrollPosition(prev, key, position);
      UpdateScrollPosition(r, key, position) == r
  {
  }

  class ExpressionProvider {
    var cache: Cache

    constructor ()
      ensures cache == map[]
    {
      cache := map[];
    }

    method ApplySetCache(key: string, state: ExpressionState)
      modifies this
      ensures cache == SetCache(old(cache), key, state)
    {
      cache := SetCache(cache, key, state);
    }

    method ApplyUpdateCacheData(key: string, size: int)
      modifies this
      ensures cache == UpdateCacheData(old(cache), key, size)
    {
      cache := UpdateCacheData(cache, key, size);
    }

    method ApplyUpdateScrollPosition(key: string, position: real)
      modifies this
      ensures cache == UpdateScrollPosition(old(cache), key, position)
    {
      cache := UpdateScrollPosition(cache, key, position);
    }

    /** `getCache`. */
    function GetCache(key: string): (r: Option<ExpressionState>)
      reads this
      ensures r.Some? <==> key in cache
      ensures r.Some? ==> r.value == cache[key]
    {
      if key in cache then Some(cache[key]) else None
    }
  }
}
