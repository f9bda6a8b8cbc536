/**
 * The filter handlers of `components/FilterBar.tsx`: a list of updates is
 * applied to a copy of the current query, and the search box turns its term
 * into such a list.  `router.push` is left to the caller: the handlers here
 * return the query the page navigates to (`/?` followed by it).
 */
module FilterBar {
  import opened Common
  import opened Text
  import opened SearchParams

  /** One entry of the `updates` record; `None` is `null`.  The record's keys
    * are distinct and are visited in insertion order. */
  type Updates = seq<(string, Option<string>)>

  /** A value that removes its parameter: `null`, `"all"` or `""`. */
  predicate Clears(value: Option<string>) {
    value.None? || value.value == "all" || value.value == ""
  }

  /** One update applied to the query. */
  function ApplyOne(params: Params, key: string, value: Option<string>): Params {
    if Clears(value) then Delete(params, key) else Set(params, key, value.value)
  }

  /** The updates applied in order. */
  function ApplyAll(params: Params, updates: Updates): Params
    decreases |updates|
  {
    if updates == [] then params
    else
      var last := updates[|updates| - 1];
      ApplyOne(ApplyAll(params, updates[..|updates| - 1]), last.0, last.1)
  }

  /** `updateFilters(updates)`: the query the page navigates to. */
  method UpdateFilters(params: Params, updates: Updates) returns (result: Params)
    ensures result == ApplyAll(params, updates)
  {
    result := params;
    var i := 0;
    while i < |updates|
      invariant 0 <= i <= |updates|
      invariant result == ApplyAll(params, updates[..i])
    {
      var (key, value) := updates[i];
      assert updates[..i + 1][..i] == updates[..i];
      if value.None? || value.value == "all" || value.value == "" {
        result := Delete(result, key);
      } else {
        result := Set(result, key, value.value);
      }
      i := i + 1;
    }
    assert updates[..|updates|] == updates;
  }

  predicate DistinctKeys(updates: Updates) {
    forall i, j :: 0 <= i < j < |updates| ==> updates[i].0 != updates[j].0
  }

  /** After the updates, each key mentioned has no value when it was cleared
    * and exactly its new value otherwise, and every other parameter keeps
    * its values. */
  lemma {:induction false} UpdatesEffect(params: Params, updates: Updates, name: string)
    requires DistinctKeys(updates)
    ensures forall i :: 0 <= i < |updates| && updates[i].0 == name ==>
      Values(ApplyAll(params, updates), name) == if Clears(updates[i].1) then [] else [updates[i].1.value]
    ensures (forall i :: 0 <= i < |updates| ==> updates[i].0 != name) ==>
      Values(ApplyAll(params, updates), name) == Values(params, name)
    decreases |updates|
  {
    if updates != [] {
      var init := updates[..|updates| - 1];
      var last := updates[|updates| - 1];
      assert DistinctKeys(init);
      UpdatesEffect(params, init, name);
      OneEffect(ApplyAll(params, init), last.0, last.1, name);
      forall i | 0 <= i < |updates| && updates[i].0 == name
        ensures Values(ApplyAll(params, updates), name) == if Clears(updates[i].1) then [] else [updates[i].1.value]
      {
        if i < |init| {
          assert init[i] == updates[i];
        }
      }
      if forall i :: 0 <= i < |updates| ==> updates[i].0 != name {
        assert forall i :: 0 <= i < |init| ==> init[i] == updates[i];
      }
    }
  }

  lemma OneEffect(params: Params, key: string, value: Option<string>, name: string)
    ensures name == key ==> Values(ApplyOne(params, key, value), name) == if Clears(value) then [] else [value.value]
    ensures name != key ==> Values(ApplyOne(params, key, value), name) == Values(params, name)
  {
    if Clears(value) {
      DeleteValues(params, key, name);
    } else {
      SetValues(params, key, value.value, name);
    }
  }

  /** `handleSearch(term)`: the updates the search box asks for. */
  function SearchUpdates(term: string): (u: Updates)
    ensures DistinctKeys(u) && |u| == 2 && u[0].0 == "search" && u[1].0 == "tag"
  {
    if term == [] then [("search", None), ("tag", None)]
    else if StartsWith(term, "#") then
      var tagQuery := Trim(term[1..]);
      if tagQuery != [] then [("search", None), ("tag", Some(tagQuery))]
      else [("search", None), ("tag", None)]
    else [("search", Some(term)), ("tag", None)]
  }

  /** `handleClear()`. */
  const ClearUpdates: Updates := [("search", None), ("tag", None)]

  /** The values a key has after an update with `value`. */
  function Outcome(value: Option<string>): seq<string> {
    if Clears(value) then [] else [value.value]
  }

  /** A search-and-tag update sets each of the two and nothing else. */
  lemma SearchAndTag(params: Params, search: Option<string>, tag: Option<string>, other: string)
    ensures var after := ApplyAll(params, [("search", search), ("tag", tag)]);
      Values(after, "search") == Outcome(search) && Values(after, "tag") == Outcome(tag)
      && (other != "search" && other != "tag" ==> Values(after, other) == Values(params, other))
  {
    var u := [("search", search), ("tag", tag)];
    UpdatesEffect(params, u, "search");
    UpdatesEffect(params, u, "tag");
    UpdatesEffect(params, u, other);
    assert u[0].0 == "search" && u[1].0 == "tag";
  }

  /** The query after a search: an empty term or a bare `#` removes both
    * filters; `#tag` filters by the trimmed tag alone; any other term
    * searches for itself alone.  A term or tag `all` clears its filter
    * instead, as every update to `all` does.
    * No other parameter changes. */
  lemma SearchEffect(params: Params, term: string, other: string)
    ensures var after := ApplyAll(params, SearchUpdates(term));
      (term == [] || (StartsWith(term, "#") && Trim(term[1..]) == []) ==>
        Values(after, "search") == [] && Values(after, "tag") == [])
      && (StartsWith(term, "#") && Trim(term[1..]) != [] ==>
        Values(after, "search") == []
        && Values(after, "tag") == (if Trim(term[1..]) == "all" then [] else [Trim(term[1..])]))
      && (term != [] && !StartsWith(term, "#") ==>
        Values(after, "search") == (if term == "all" then [] else [term]) && Values(after, "tag") == [])
      && (other != "search" && other != "tag" ==> Values(after, other) == Values(params, other))
  {
    var u := SearchUpdates(term);
    SearchAndTag(params, u[0].1, u[1].1, other);
    assert u == [("search", u[0].1), ("tag", u[1].1)];
  }

  /** A category chip: `all` removes the category filter, any other category
    * becomes the only category; search, tag and the rest are kept. */
  lemma CategoryEffect(params: Params, cat: string, other: string)
    ensures Values(ApplyAll(params, [("category", Some(cat))]), "category") == if cat == "all" || cat == "" then [] else [cat]
    ensures other != "category" ==> Values(ApplyAll(params, [("category", Some(cat))]), other) == Values(params, other)
  {
    var u := [("category", Some(cat))];
    UpdatesEffect(params, u, "category");
    UpdatesEffect(params, u, other);
    assert u[0].0 == "category";
  }

  /** Clearing removes both filters and keeps everything else. */
  lemma ClearEffect(params: Params, other: string)
    ensures Values(ApplyAll(params, ClearUpdates), "search") == []
    ensures Values(ApplyAll(params, ClearUpdates), "tag") == []
    ensures other != "search" && other != "tag" ==> Values(ApplyAll(params, ClearUpdates), other) == Values(params, other)
  {
    SearchAndTag(params, None, None, other);
  }
}
