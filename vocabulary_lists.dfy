/**
 * `hooks/user/useVocabularyListSync.ts` and `hooks/user/useVocabularyLists.ts`:
 * how the vocabulary hooks drive the store — count adjustments, the
 * optimistic protocol around a server call, the order lists are shown in,
 * and the free-plan list limit.
 */
module VocabularyLists {
  import opened Common
  import opened VocabularyStore

  // ------------------------------------------------ useVocabularyListSync

  /** `adjustItemCounts`: each list with an adjustment moves by its delta,
    * floored at zero; the others are left alone. */
  function AdjustItemCounts(lists: seq<VocabList>, adjustments: map<string, int>): seq<VocabList> {
    seq(|lists|, k requires 0 <= k < |lists| =>
      if lists[k].id in adjustments
      then lists[k].(itemCount := Some(Floor0(CountOf(lists[k]) + adjustments[lists[k].id])))
      else lists[k])
  }

  lemma AdjustItemCountsSpec(lists: seq<VocabList>, adjustments: map<string, int>)
    ensures var r := AdjustItemCounts(lists, adjustments);
      |r| == |lists|
      && (forall k :: 0 <= k < |lists| ==>
            r[k].id == lists[k].id && r[k].title == lists[k].title && r[k].isDefault == lists[k].isDefault)
      && (forall k :: 0 <= k < |lists| && lists[k].id !in adjustments ==> r[k] == lists[k])
      && (forall k :: 0 <= k < |lists| && lists[k].id in adjustments ==>
            CountOf(r[k]) >= 0
            && (CountOf(lists[k]) + adjustments[lists[k].id] >= 0 ==>
                  CountOf(r[k]) == CountOf(lists[k]) + adjustments[lists[k].id]))
      && (NonNegativeCounts(lists) ==> NonNegativeCounts(r))
      && (adjustments == map[] ==> r == lists)
  {
  }

  /** Writes the adjusted lists to the store and returns what the list cache
    * is given. */
  method AdjustItemCountsIn(store: Store, adjustments: map<string, int>) returns (cached: seq<VocabList>)
    modifies store
    ensures store.lists == AdjustItemCounts(old(store.lists), adjustments)
    ensures cached == store.lists
    ensures store.savedListIds == old(store.savedListIds) && store.pendingOps == old(store.pendingOps)
  {
    var updatedLists := AdjustItemCounts(store.lists, adjustments);
    store.SetLists(updatedLists);
    cached := updatedLists;
  }

  /** `resolveAndSyncLists`: resolve first, then mirror the store's lists
    * (whatever the resolve left) into the list cache. */
  method ResolveAndSyncLists(store: Store, serverData: Option<seq<VocabList>>) returns (cached: seq<VocabList>)
    modifies store
    ensures store.pendingOps == Floor0(old(store.pendingOps) - 1)
    ensures store.lists == (if store.pendingOps == 0 && serverData.Some? then serverData.value else old(store.lists))
    ensures cached == store.lists
    ensures store.savedListIds == old(store.savedListIds)
  {
    store.ResolveOperation(serverData);
    cached := store.lists;
  }

  /** A cache key: a plain string, or an array of string parts. */
  datatype CacheKey = TextKey(s: string) | ListKey(parts: seq<string>)

  function KeyPart(parts: seq<string>, i: nat): Option<string> {
    if i < |parts| then Some(parts[i]) else None
  }

  /** The predicate `invalidateOtherDetailPages` hands to the cache. */
  predicate InvalidatesOtherDetail(key: CacheKey, listId: string) {
    key.ListKey? && KeyPart(key.parts, 0) == Some("vocabulary-details") && KeyPart(key.parts, 1) != Some(listId)
  }

  /** It matches exactly the array keys of another list's detail page
    * (a missing second part counts as another page). */
  lemma InvalidationMatches(key: CacheKey, listId: string)
    ensures InvalidatesOtherDetail(key, listId) <==>
      key.ListKey? && |key.parts| >= 1 && key.parts[0] == "vocabulary-details"
      && (|key.parts| == 1 || key.parts[1] != listId)
    ensures !InvalidatesOtherDetail(ListKey(["vocabulary-details", listId]), listId)
    ensures forall other :: other != listId ==> InvalidatesOtherDetail(ListKey(["vocabulary-details", other]), listId)
    ensures !InvalidatesOtherDetail(TextKey("vocabulary-details"), listId)
  {
  }

  // ------------------------------------------------ useVocabularyLists: lists

  predicate IsDefaultList(l: VocabList) { l.isDefault }

  predicate IsOtherList(l: VocabList) { !l.isDefault }

  /** The stable `sort` with the defaults-first comparator: the default lists,
    * then the others, each group in its original order. */
  function DefaultsFirst(xs: seq<VocabList>): seq<VocabList> {
    Filter(xs, IsDefaultList) + Filter(xs, IsOtherList)
  }

  /** The Pro `lists` memo: the store's lists when it has any, else the server
    * data (or nothing), defaults first. */
  function ProLists(storeLists: seq<VocabList>, serverData: Option<seq<VocabList>>): seq<VocabList> {
    var source := if |storeLists| > 0 then storeLists else if serverData.Some? then serverData.value else [];
    DefaultsFirst(source)
  }

  /** The sorted lists are a permutation of the source. */
  lemma {:induction false} DefaultsFirstPermutes(xs: seq<VocabList>)
    ensures multiset(DefaultsFirst(xs)) == multiset(xs)
    decreases |xs|
  {
    if xs != [] {
      var init := xs[..|xs| - 1];
      DefaultsFirstPermutes(init);
      assert xs == init + [xs[|xs| - 1]];
      FilterSnoc(init, xs[|xs| - 1], IsDefaultList);
      FilterSnoc(init, xs[|xs| - 1], IsOtherList);
    }
  }

  lemma FilterAllSatisfy(xs: seq<VocabList>, p: VocabList -> bool)
    ensures forall k :: 0 <= k < |Filter(xs, p)| ==> p(Filter(xs, p)[k])
  {
    var f := Filter(xs, p);
    forall k | 0 <= k < |f| ensures p(f[k]) {
      assert f[k] in f;
      FilterMember(xs, p, f[k]);
    }
  }

  /** Every default list comes before every other list. */
  lemma DefaultsFirstOrders(xs: seq<VocabList>)
    ensures var r := DefaultsFirst(xs);
      forall i, j :: 0 <= i < j < |r| && r[j].isDefault ==> r[i].isDefault
  {
    var d := Filter(xs, IsDefaultList);
    var n := Filter(xs, IsOtherList);
    FilterAllSatisfy(xs, IsDefaultList);
    FilterAllSatisfy(xs, IsOtherList);
    var r := DefaultsFirst(xs);
    assert forall k :: 0 <= k < |d| ==> r[k] == d[k];
    assert forall k :: |d| <= k < |r| ==> r[k] == n[k - |d|];
  }

  /** The sort is stable: within each group the source order is kept. */
  lemma DefaultsFirstStable(xs: seq<VocabList>)
    ensures Filter(DefaultsFirst(xs), IsDefaultList) == Filter(xs, IsDefaultList)
    ensures Filter(DefaultsFirst(xs), IsOtherList) == Filter(xs, IsOtherList)
  {
    var d := Filter(xs, IsDefaultList);
    var n := Filter(xs, IsOtherList);
    FilterAllSatisfy(xs, IsDefaultList);
    FilterAllSatisfy(xs, IsOtherList);
    FilterAppend(d, n, IsDefaultList);
    FilterAppend(d, n, IsOtherList);
    FilterAll(d, IsDefaultList);
    FilterAll(n, IsOtherList);
    FilterNone(d, IsOtherList);
    FilterNone(n, IsDefaultList);
  }

  lemma {:induction false} FilterNone(xs: seq<VocabList>, p: VocabList -> bool)
    requires forall k :: 0 <= k < |xs| ==> !p(xs[k])
    ensures Filter(xs, p) == []
    decreases |xs|
  {
    if xs != [] {
      FilterNone(xs[..|xs| - 1], p);
    }
  }

  /** A local (free-plan) list: `itemIds` is a set and `isDefault` may be
    * missing. */
  datatype LocalList = LocalList(id: string, title: string, itemIds: seq<string>,
                                 isDefault: Option<bool>, createdAt: string)

  predicate IsDefaultLocal(l: LocalList) {
    l.isDefault == Some(true)
  }

  /** Code-unit order on strings, the order `localeCompare` gives the
    * ISO timestamps of `createdAt`. */
  predicate StrLess(a: string, b: string)
    decreases |a|
  {
    if a == [] then b != []
    else if b == [] then false
    else if a[0] != b[0] then a[0] < b[0]
    else StrLess(a[1..], b[1..])
  }

  lemma {:induction false} StrLessIrreflexive(a: string)
    ensures !StrLess(a, a)
    decreases |a|
  {
    if a != [] {
      StrLessIrreflexive(a[1..]);
    }
  }

  lemma {:induction false} StrLessTransitive(a: string, b: string, c: string)
    requires StrLess(a, b) && StrLess(b, c)
    ensures StrLess(a, c)
    decreases |a|
  {
    if a != [] && a[0] == b[0] && b[0] == c[0] {
      StrLessTransitive(a[1..], b[1..], c[1..]);
    }
  }

  lemma {:induction false} StrLessTotal(a: string, b: string)
    ensures a == b || StrLess(a, b) || StrLess(b, a)
    decreases |a|
  {
    if a != [] && b != [] && a[0] == b[0] {
      StrLessTotal(a[1..], b[1..]);
      if a[1..] == b[1..] {
        assert a == [a[0]] + a[1..] && b == [b[0]] + b[1..];
      }
    }
  }

  /** `compare(a, b) < 0` for the free-plan comparator: defaults first, then
    * by creation time. */
  predicate Precedes(a: LocalList, b: LocalList) {
    (IsDefaultLocal(a) && !IsDefaultLocal(b))
    || (IsDefaultLocal(a) == IsDefaultLocal(b) && StrLess(a.createdAt, b.createdAt))
  }

  lemma PrecedesAsymmetric(a: LocalList, b: LocalList)
    requires Precedes(a, b)
    ensures !Precedes(b, a)
  {
    if IsDefaultLocal(a) == IsDefaultLocal(b) && StrLess(b.createdAt, a.createdAt) {
      StrLessTransitive(a.createdAt, b.createdAt, a.createdAt);
      StrLessIrreflexive(a.createdAt);
    }
  }

  /** If `a` precedes `c`, any `b` comes after `a` or before `c`. */
  lemma PrecedesSplit(a: LocalList, b: LocalList, c: LocalList)
    requires Precedes(a, c)
    ensures Precedes(a, b) || Precedes(b, c)
  {
    if IsDefaultLocal(a) == IsDefaultLocal(c) && IsDefaultLocal(b) == IsDefaultLocal(a) {
      StrLessTotal(a.createdAt, b.createdAt);
      StrLessTotal(b.createdAt, c.createdAt);
      if !StrLess(a.createdAt, b.createdAt) && !StrLess(b.createdAt, c.createdAt) {
        if a.createdAt != b.createdAt {
          assert StrLess(b.createdAt, a.createdAt);
          StrLessTransitive(b.createdAt, a.createdAt, c.createdAt);
        }
      }
    }
  }

  predicate SortedLocal(s: seq<LocalList>) {
    forall i, j :: 0 <= i < j < |s| ==> !Precedes(s[j], s[i])
  }

  /** Stable insertion: `x` goes in front of the first element it does not
    * follow. */
  function InsertLocal(x: LocalList, ys: seq<LocalList>): seq<LocalList>
    decreases |ys|
  {
    if ys == [] then [x]
    else if Precedes(ys[0], x) then [ys[0]] + InsertLocal(x, ys[1..])
    else [x] + ys
  }

  /** `Array.prototype.sort` with the free-plan comparator, as a stable
    * insertion sort. */
  function SortLocal(xs: seq<LocalList>): seq<LocalList>
    decreases |xs|
  {
    if xs == [] then [] else InsertLocal(xs[0], SortLocal(xs[1..]))
  }

  lemma {:induction false} InsertLocalSpec(x: LocalList, ys: seq<LocalList>)
    requires SortedLocal(ys)
    ensures multiset(InsertLocal(x, ys)) == multiset(ys) + multiset{x}
    ensures SortedLocal(InsertLocal(x, ys))
    decreases |ys|
  {
    if ys != [] {
      if Precedes(ys[0], x) {
        var tail := ys[1..];
        assert SortedLocal(tail);
        InsertLocalSpec(x, tail);
        assert ys == [ys[0]] + tail;
        AfterHeadSorted(ys[0], x, tail, InsertLocal(x, tail));
      } else {
        BeforeHeadSorted(x, ys);
      }
    }
  }

  /** An element that `h` precedes, inserted into a sorted tail that follows
    * `h`, keeps the whole list sorted behind `h`. */
  lemma AfterHeadSorted(h: LocalList, x: LocalList, tail: seq<LocalList>, rest: seq<LocalList>)
    requires Precedes(h, x) && SortedLocal([h] + tail)
    requires multiset(rest) == multiset(tail) + multiset{x} && SortedLocal(rest)
    ensures SortedLocal([h] + rest)
  {
    var ys := [h] + tail;
    forall j | 0 <= j < |rest| ensures !Precedes(rest[j], h) {
      assert rest[j] in multiset(rest);
      if rest[j] == x {
        PrecedesAsymmetric(h, x);
      } else {
        assert rest[j] in multiset(tail);
        var m :| 0 <= m < |tail| && tail[m] == rest[j];
        assert ys[m + 1] == rest[j] && ys[0] == h;
      }
    }
    SortedCons(h, rest);
  }

  /** An element that does not follow the head of a sorted list goes in
    * front of it. */
  lemma BeforeHeadSorted(x: LocalList, ys: seq<LocalList>)
    requires ys != [] && !Precedes(ys[0], x) && SortedLocal(ys)
    ensures InsertLocal(x, ys) == [x] + ys
    ensures SortedLocal([x] + ys)
  {
    forall j | 0 <= j < |ys| ensures !Precedes(ys[j], x) {
      if j > 0 && Precedes(ys[j], x) {
        PrecedesSplit(ys[j], ys[0], x);
      }
    }
    SortedCons(x, ys);
  }

  lemma SortedCons(h: LocalList, t: seq<LocalList>)
    requires SortedLocal(t)
    requires forall j :: 0 <= j < |t| ==> !Precedes(t[j], h)
    ensures SortedLocal([h] + t)
  {
    var r := [h] + t;
    forall i, j | 0 <= i < j < |r| ensures !Precedes(r[j], r[i]) {
      assert r[j] == t[j - 1];
      if i > 0 {
        assert r[i] == t[i - 1];
      }
    }
  }

  lemma {:induction false} SortLocalSpec(xs: seq<LocalList>)
    ensures multiset(SortLocal(xs)) == multiset(xs)
    ensures SortedLocal(SortLocal(xs))
    decreases |xs|
  {
    if xs != [] {
      SortLocalSpec(xs[1..]);
      InsertLocalSpec(xs[0], SortLocal(xs[1..]));
      assert xs == [xs[0]] + xs[1..];
    }
  }

  /** What a local list looks like on screen. */
  function LocalView(l: LocalList): VocabList {
    VocabList(l.id, l.title, Some(|l.itemIds|), IsDefaultLocal(l))
  }

  /** The free-plan `lists` memo over the local lists (`Object.values`). */
  function FreeLists(values: seq<LocalList>): seq<VocabList> {
    var sorted := SortLocal(values);
    seq(|sorted|, k requires 0 <= k < |sorted| => LocalView(sorted[k]))
  }

  /** Free lists show every local list once, defaults first and otherwise by
    * creation time; each count is the size of its item set and a missing
    * default flag reads as false. */
  lemma FreeListsSpec(values: seq<LocalList>)
    ensures |FreeLists(values)| == |values|
    ensures var s := SortLocal(values);
      multiset(s) == multiset(values)
      && (forall i, j :: 0 <= i < j < |s| && IsDefaultLocal(s[j]) ==> IsDefaultLocal(s[i]))
      && (forall i, j :: 0 <= i < j < |s| && IsDefaultLocal(s[i]) == IsDefaultLocal(s[j]) ==>
            !StrLess(s[j].createdAt, s[i].createdAt))
      && (forall k :: 0 <= k < |s| ==>
            FreeLists(values)[k].id == s[k].id && FreeLists(values)[k].itemCount == Some(|s[k].itemIds|)
            && (FreeLists(values)[k].isDefault <==> s[k].isDefault == Some(true)))
  {
    var s := SortLocal(values);
    SortLocalSpec(values);
    assert |s| == |multiset(s)| == |multiset(values)| == |values|;
  }

  /** The Pro lists are the chosen source, reordered with defaults first. */
  lemma ProListsSpec(storeLists: seq<VocabList>, serverData: Option<seq<VocabList>>)
    ensures |storeLists| > 0 ==> multiset(ProLists(storeLists, serverData)) == multiset(storeLists)
    ensures |storeLists| == 0 && serverData.Some? ==>
      multiset(ProLists(storeLists, serverData)) == multiset(serverData.value)
    ensures |storeLists| == 0 && serverData.None? ==> ProLists(storeLists, serverData) == []
    ensures var r := ProLists(storeLists, serverData);
      forall i, j :: 0 <= i < j < |r| && r[j].isDefault ==> r[i].isDefault
  {
    var source := if |storeLists| > 0 then storeLists else if serverData.Some? then serverData.value else [];
    DefaultsFirstPermutes(source);
    DefaultsFirstOrders(source);
  }

  // ------------------------------------------------ useVocabularyLists: actions

  /** The store's background sync effect: only non-empty server data is
    * pushed, and the store ignores it while work is pending. */
  method PushServerData(store: Store, serverData: Option<seq<VocabList>>)
    modifies store
    ensures store.lists ==
      (if serverData.Some? && |serverData.value| > 0 && old(store.pendingOps) == 0 then serverData.value
       else old(store.lists))
    ensures store.savedListIds == old(store.savedListIds) && store.pendingOps == old(store.pendingOps)
  {
    if serverData.Some? && |serverData.value| > 0 {
      store.SyncWithServer(serverData.value);
    }
  }

  datatype CreateListStep = LimitReached | CreateLocally | CreateOnServer

  /** `createList`: a free user may keep at most five lists. */
  function CreateList(isPro: bool, listCount: nat): (step: CreateListStep)
    ensures step == LimitReached <==> !isPro && listCount >= 5
    ensures step == CreateOnServer <==> isPro
  {
    if !isPro then (if listCount >= 5 then LimitReached else CreateLocally)
    else CreateOnServer
  }

  datatype LocalListOp = AddToList | RemoveFromList

  /** The free-plan branch of `toggleInList`. */
  function FreeToggle(isCurrentlyIn: bool): (op: LocalListOp)
    ensures op == RemoveFromList <==> isCurrentlyIn
  {
    if isCurrentlyIn then RemoveFromList else AddToList
  }

  /** The Pro branch of `toggleInList`: one optimistic toggle (adding when the
    * expression is not in the list), the server call, then exactly one
    * resolve — with the refetched data on success, or the refetched or last
    * known data on failure, which is then reported. */
  method ProToggleInList(store: Store, listId: string, expressionId: string, isCurrentlyIn: bool,
                         succeeded: bool, refetched: Option<seq<VocabList>>, serverData: Option<seq<VocabList>>)
    returns (failed: bool)
    modifies store
    ensures failed <==> !succeeded
    ensures store.pendingOps == old(store.pendingOps)
    ensures var resolvedWith := if succeeded || refetched.Some? then refetched else serverData;
      store.lists ==
        (if old(store.pendingOps) == 0 && resolvedWith.Some? then resolvedWith.value
         else ToggledLists(old(store.lists), old(store.savedListIds), listId, expressionId, !isCurrentlyIn))
    ensures store.savedListIds == ToggledSaved(old(store.savedListIds), listId, expressionId, !isCurrentlyIn)
  {
    var add := !isCurrentlyIn;
    store.OptimisticToggle(listId, expressionId, add);
    if succeeded {
      store.ResolveOperation(refetched);
      failed := false;
    } else {
      var rollbackData := if refetched.Some? then refetched else serverData;
      store.ResolveOperation(rollbackData);
      failed := true;
    }
  }

  /** The Pro branch of `setDefaultList`, with the same protocol. */
  method ProSetDefaultList(store: Store, listId: string,
                           succeeded: bool, refetched: Option<seq<VocabList>>, serverData: Option<seq<VocabList>>)
    returns (failed: bool)
    modifies store
    ensures failed <==> !succeeded
    ensures store.pendingOps == old(store.pendingOps)
    ensures var resolvedWith := if succeeded || refetched.Some? then refetched else serverData;
      store.lists ==
        (if old(store.pendingOps) == 0 && resolvedWith.Some? then resolvedWith.value
         else DefaultSet(old(store.lists), listId))
    ensures store.savedListIds == old(store.savedListIds)
  {
    store.OptimisticSetDefault(listId);
    if succeeded {
      store.ResolveOperation(refetched);
      failed := false;
    } else {
      var rollbackData := if refetched.Some? then refetched else serverData;
      store.ResolveOperation(rollbackData);
      failed := true;
    }
  }
}
