/**
 * `store/useVocabularyStore.ts`: the signed-in user's vocabulary lists, held
 * client-side and updated optimistically.  Every optimistic action bumps a
 * pending-operation counter; server data replaces the lists only while
 * nothing is pending.  `savedListIds` maps an expression id to the set of
 * lists that contain it.
 */
module VocabularyStore {
  import opened Common
  import opened JsSet

  /** A list as the store holds it (`VocabularyListWithCount`); a missing
    * `item_count` is `None`. */
  datatype VocabList = VocabList(id: string, title: string, itemCount: Option<int>, isDefault: bool)

  /** `l.item_count || 0`. */
  function CountOf(l: VocabList): int {
    match l.itemCount
    case None => 0
    case Some(n) => n
  }

  /** `Math.max(0, n)`. */
  function Floor0(n: int): nat {
    if n < 0 then 0 else n
  }

  /** `lists.findIndex(l => l.id === id)`: the first position with that id,
    * or -1. */
  function FirstIndex(lists: seq<VocabList>, id: string): (r: int)
    ensures -1 <= r < |lists|
    ensures r == -1 ==> forall k :: 0 <= k < |lists| ==> lists[k].id != id
    ensures 0 <= r ==> lists[r].id == id && forall k :: 0 <= k < r ==> lists[k].id != id
    decreases |lists|
  {
    if lists == [] then -1
    else if lists[0].id == id then 0
    else
      var r := FirstIndex(lists[1..], id);
      if r == -1 then -1 else r + 1
  }

  /** The loop `findIndex` runs. */
  method FindListIndex(lists: seq<VocabList>, id: string) returns (r: int)
    ensures r == FirstIndex(lists, id)
  {
    r := 0;
    while r < |lists| && lists[r].id != id
      invariant 0 <= r <= |lists|
      invariant forall k :: 0 <= k < r ==> lists[k].id != id
    {
      r := r + 1;
    }
    if r == |lists| {
      r := -1;
    }
  }

  /** `savedListIds.get(expressionId)`. */
  function Lookup(saved: map<string, seq<string>>, expressionId: string): Option<seq<string>> {
    if expressionId in saved then Some(saved[expressionId]) else None
  }

  /** `selectSavedListIds(expressionId)`: the saved set, or the empty set. */
  function SavedListIds(saved: map<string, seq<string>>, expressionId: string): seq<string> {
    if expressionId in saved then saved[expressionId] else []
  }

  /** `shouldAdjust`: without a mapping the caller is trusted; with one the
    * count moves only when membership really changes. */
  function ShouldAdjust(current: Option<seq<string>>, listId: string, add: bool): bool {
    match current
    case None => true
    case Some(s) => if add then listId !in s else listId in s
  }

  /** One more item, or one fewer but never below zero. */
  function Adjusted(l: VocabList, add: bool): VocabList {
    l.(itemCount := Some(if add then CountOf(l) + 1 else Floor0(CountOf(l) - 1)))
  }

  /** The lists after `optimisticToggle`. */
  function ToggledLists(lists: seq<VocabList>, saved: map<string, seq<string>>, listId: string,
                        expressionId: string, add: bool): seq<VocabList>
  {
    var i := FirstIndex(lists, listId);
    if i != -1 && ShouldAdjust(Lookup(saved, expressionId), listId, add) then
      lists[i := Adjusted(lists[i], add)]
    else lists
  }

  /** The saved sets after `optimisticToggle`. */
  function ToggledSaved(saved: map<string, seq<string>>, listId: string, expressionId: string,
                        add: bool): map<string, seq<string>>
  {
    if expressionId in saved then
      saved[expressionId := if add then Add(saved[expressionId], listId) else Delete(saved[expressionId], listId)]
    else if add then saved[expressionId := [listId]]
    else saved
  }

  /** The lists after `optimisticSetDefault`. */
  function DefaultSet(lists: seq<VocabList>, listId: string): seq<VocabList> {
    seq(|lists|, k requires 0 <= k < |lists| => lists[k].(isDefault := lists[k].id == listId))
  }

  /** The lists after `optimisticUpdateTitle`: the first list with the id
    * is renamed. */
  function TitleUpdated(lists: seq<VocabList>, listId: string, title: string): seq<VocabList> {
    var i := FirstIndex(lists, listId);
    if i == -1 then lists else lists[i := lists[i].(title := title)]
  }

  /** The lists after `optimisticDeleteList`. */
  function Deleted(lists: seq<VocabList>, listId: string): seq<VocabList> {
    Filter(lists, (l: VocabList) => l.id != listId)
  }

  predicate NonNegativeCounts(lists: seq<VocabList>) {
    forall k :: 0 <= k < |lists| ==> CountOf(lists[k]) >= 0
  }

  class Store {
    var lists: seq<VocabList>
    var savedListIds: map<string, seq<string>>
    var pendingOps: nat

    constructor ()
      ensures lists == [] && savedListIds == map[] && pendingOps == 0
    {
      lists := [];
      savedListIds := map[];
      pendingOps := 0;
    }

    method SetLists(newLists: seq<VocabList>)
      modifies this
      ensures lists == newLists
      ensures savedListIds == old(savedListIds) && pendingOps == old(pendingOps)
    {
      lists := newLists;
    }

    /** Background refresh: ignored while optimistic work is pending. */
    method SyncWithServer(serverData: seq<VocabList>)
      modifies this
      ensures lists == (if old(pendingOps) == 0 then serverData else old(lists))
      ensures savedListIds == old(savedListIds) && pendingOps == old(pendingOps)
    {
      if pendingOps == 0 {
        lists := serverData;
      }
    }

    method OptimisticToggle(listId: string, expressionId: string, add: bool)
      modifies this
      ensures pendingOps == old(pendingOps) + 1
      ensures lists == ToggledLists(old(lists), old(savedListIds), listId, expressionId, add)
      ensures savedListIds == ToggledSaved(old(savedListIds), listId, expressionId, add)
    {
      pendingOps := pendingOps + 1;
      var currentSet := Lookup(savedListIds, expressionId);
      var isCurrentlyInList := currentSet.Some? && listId in currentSet.value;
      var shouldAdjust := if currentSet.None? then true else if add then !isCurrentlyInList else isCurrentlyInList;
      var listIndex := FindListIndex(lists, listId);
      if listIndex != -1 && shouldAdjust {
        var count := CountOf(lists[listIndex]);
        var newCount := if add then count + 1 else Floor0(count - 1);
        lists := lists[listIndex := lists[listIndex].(itemCount := Some(newCount))];
      }
      if add {
        if currentSet.Some? {
          savedListIds := savedListIds[expressionId := Add(currentSet.value, listId)];
        } else {
          savedListIds := savedListIds[expressionId := [listId]];
        }
      } else if currentSet.Some? {
        savedListIds := savedListIds[expressionId := Delete(currentSet.value, listId)];
      }
    }

    /** The `forEach` that marks each list default exactly when its id matches. */
    method OptimisticSetDefault(listId: string)
      modifies this
      ensures pendingOps == old(pendingOps) + 1
      ensures lists == DefaultSet(old(lists), listId)
      ensures savedListIds == old(savedListIds)
    {
      pendingOps := pendingOps + 1;
      var i := 0;
      while i < |lists|
        invariant 0 <= i <= |lists| == |old(lists)|
        invariant forall k :: 0 <= k < i ==> lists[k] == old(lists)[k].(isDefault := old(lists)[k].id == listId)
        invariant forall k :: i <= k < |lists| ==> lists[k] == old(lists)[k]
        invariant savedListIds == old(savedListIds) && pendingOps == old(pendingOps) + 1
      {
        lists := lists[i := lists[i].(isDefault := lists[i].id == listId)];
        i := i + 1;
      }
    }

    method OptimisticUpdateTitle(listId: string, title: string)
      modifies this
      ensures pendingOps == old(pendingOps) + 1
      ensures lists == TitleUpdated(old(lists), listId, title)
      ensures savedListIds == old(savedListIds)
    {
      pendingOps := pendingOps + 1;
      var i := FindListIndex(lists, listId);
      if i != -1 {
        lists := lists[i := lists[i].(title := title)];
      }
    }

    method OptimisticDeleteList(listId: string)
      modifies this
      ensures pendingOps == old(pendingOps) + 1
      ensures lists == Deleted(old(lists), listId)
      ensures savedListIds == old(savedListIds)
    {
      pendingOps := pendingOps + 1;
      lists := Deleted(lists, listId);
    }

    /** One optimistic operation is done: the counter drops, never below 0,
      * and the last one to finish installs the server data if it has any. */
    method ResolveOperation(serverData: Option<seq<VocabList>>)
      modifies this
      ensures pendingOps == Floor0(old(pendingOps) - 1)
      ensures lists == (if pendingOps == 0 && serverData.Some? then serverData.value else old(lists))
      ensures savedListIds == old(savedListIds)
    {
      pendingOps := Floor0(pendingOps - 1);
      if pendingOps == 0 && serverData.Some? {
        lists := serverData.value;
      }
    }

    method SyncSavedListIds(expressionId: string, listIds: seq<string>)
      modifies this
      ensures savedListIds == old(savedListIds)[expressionId := FromArray(listIds)]
      ensures lists == old(lists) && pendingOps == old(pendingOps)
    {
      savedListIds := savedListIds[expressionId := FromArray(listIds)];
    }

    /** `selectSavedListIds(expressionId)` read from the store. */
    function SelectSavedListIds(expressionId: string): (r: seq<string>)
      reads this
      ensures expressionId !in savedListIds ==> r == []
      ensures forall v :: v in r <==> expressionId in savedListIds && v in savedListIds[expressionId]
    {
      SavedListIds(savedListIds, expressionId)
    }
  }

  // ------------------------------------------------------------ properties

  /** `optimisticToggle` changes a count only when the list exists and either
    * the expression has no saved set or its membership really changes; ids,
    * titles, defaults and every other list stay as they were. */
  lemma ToggleAdjustRule(lists: seq<VocabList>, saved: map<string, seq<string>>, listId: string,
                         expressionId: string, add: bool)
    ensures var r := ToggledLists(lists, saved, listId, expressionId, add);
      |r| == |lists|
      && (forall k :: 0 <= k < |lists| ==>
            r[k].id == lists[k].id && r[k].title == lists[k].title && r[k].isDefault == lists[k].isDefault)
      && (forall k :: 0 <= k < |lists| && k != FirstIndex(lists, listId) ==> r[k] == lists[k])
      && ((exists k :: 0 <= k < |lists| && lists[k].id == listId)
          && (expressionId !in saved || (add <==> listId !in saved[expressionId]))
          ==> r[FirstIndex(lists, listId)] == Adjusted(lists[FirstIndex(lists, listId)], add))
      && (!(exists k :: 0 <= k < |lists| && lists[k].id == listId)
          || (expressionId in saved && (add <==> listId in saved[expressionId]))
          ==> r == lists)
  {
  }

  /** Counts never go negative: a removal floors at zero, an addition
    * only grows. */
  lemma ToggleKeepsCountsNonNegative(lists: seq<VocabList>, saved: map<string, seq<string>>, listId: string,
                                     expressionId: string, add: bool)
    requires NonNegativeCounts(lists)
    ensures NonNegativeCounts(ToggledLists(lists, saved, listId, expressionId, add))
  {
  }

  lemma RemovalFloorsAtZero(l: VocabList)
    ensures CountOf(Adjusted(l, false)) >= 0
    ensures CountOf(l) >= 1 ==> CountOf(Adjusted(l, false)) == CountOf(l) - 1
    ensures CountOf(Adjusted(l, true)) == CountOf(l) + 1
  {
  }

  /** After an addition the list is in the expression's saved set; after a
    * removal from an existing set it is not; no other membership and no
    * other expression changes. */
  lemma ToggleSavedMembership(saved: map<string, seq<string>>, listId: string, expressionId: string, add: bool)
    ensures var r := ToggledSaved(saved, listId, expressionId, add);
      (add ==> expressionId in r && listId in r[expressionId])
      && (!add && expressionId in saved ==> expressionId in r && listId !in r[expressionId])
      && (!add && expressionId !in saved ==> r == saved)
      && (forall v :: v != listId ==> (v in SavedListIds(r, expressionId) <==> v in SavedListIds(saved, expressionId)))
      && (forall e :: e != expressionId ==> SavedListIds(r, e) == SavedListIds(saved, e))
  {
    if expressionId in saved {
      DeleteMembers(saved[expressionId], listId);
    }
  }

  /** The position `findIndex` finds depends only on the ids. */
  lemma FirstIndexByIds(a: seq<VocabList>, b: seq<VocabList>, id: string)
    requires |a| == |b|
    requires forall k :: 0 <= k < |a| ==> a[k].id == b[k].id
    ensures FirstIndex(a, id) == FirstIndex(b, id)
  {
  }

  /** Duplicate prevention: repeating an addition, or a removal when the
    * expression already has a saved set, changes nothing more. */
  lemma ToggleIdempotent(lists: seq<VocabList>, saved: map<string, seq<string>>, listId: string,
                         expressionId: string, add: bool)
    requires add || expressionId in saved
    ensures var lists1 := ToggledLists(lists, saved, listId, expressionId, add);
      var saved1 := ToggledSaved(saved, listId, expressionId, add);
      ToggledLists(lists1, saved1, listId, expressionId, add) == lists1
      && ToggledSaved(saved1, listId, expressionId, add) == saved1
  {
    var lists1 := ToggledLists(lists, saved, listId, expressionId, add);
    var saved1 := ToggledSaved(saved, listId, expressionId, add);
    ToggledKeepsIds(lists, saved, listId, expressionId, add);
    FirstIndexByIds(lists, lists1, listId);
    ToggleSavedMembership(saved, listId, expressionId, add);
    assert !ShouldAdjust(Lookup(saved1, expressionId), listId, add);
    SavedToggledTwice(saved, listId, expressionId, add);
  }

  /** A toggle keeps every list's id and position. */
  lemma ToggledKeepsIds(lists: seq<VocabList>, saved: map<string, seq<string>>, listId: string,
                        expressionId: string, add: bool)
    ensures var r := ToggledLists(lists, saved, listId, expressionId, add);
      |r| == |lists| && forall k :: 0 <= k < |lists| ==> r[k].id == lists[k].id
  {
  }

  /** Repeating a toggle of the saved sets changes nothing more. */
  lemma SavedToggledTwice(saved: map<string, seq<string>>, listId: string, expressionId: string, add: bool)
    requires add || expressionId in saved
    ensures var saved1 := ToggledSaved(saved, listId, expressionId, add);
      ToggledSaved(saved1, listId, expressionId, add) == saved1
  {
    var saved1 := ToggledSaved(saved, listId, expressionId, add);
    var d := saved1[expressionId];
    if add {
      assert listId in d;
    } else {
      DeleteMembers(saved[expressionId], listId);
      assert forall k :: 0 <= k < |d| ==> d[k] != listId by {
        forall k | 0 <= k < |d| ensures d[k] != listId {
          assert d[k] in d;
        }
      }
      FilterAll(d, y => y != listId);
      assert Delete(d, listId) == d;
    }
    assert saved1[expressionId := d] == saved1;
  }

  /** Without a saved set the caller is trusted, so a repeated removal
    * decrements again. */
  lemma RemovalWithoutMappingRepeats(lists: seq<VocabList>, saved: map<string, seq<string>>, listId: string,
                                     expressionId: string)
    requires expressionId !in saved
    requires 0 <= FirstIndex(lists, listId) && CountOf(lists[FirstIndex(lists, listId)]) >= 2
    ensures var lists2 := ToggledLists(ToggledLists(lists, saved, listId, expressionId, false),
                                       ToggledSaved(saved, listId, expressionId, false), listId, expressionId, false);
      CountOf(lists2[FirstIndex(lists, listId)]) == CountOf(lists[FirstIndex(lists, listId)]) - 2
  {
    var lists1 := ToggledLists(lists, saved, listId, expressionId, false);
    ToggleAdjustRule(lists, saved, listId, expressionId, false);
    FirstIndexByIds(lists, lists1, listId);
  }

  /** Adding an expression to a list it was not in and removing it again
    * restores both the lists and the saved sets exactly. */
  lemma AddThenRemoveRestores(lists: seq<VocabList>, saved: map<string, seq<string>>, listId: string,
                              expressionId: string)
    requires expressionId in saved && listId !in saved[expressionId]
    requires 0 <= FirstIndex(lists, listId) && lists[FirstIndex(lists, listId)].itemCount.Some?
    requires CountOf(lists[FirstIndex(lists, listId)]) >= 0
    ensures var lists1 := ToggledLists(lists, saved, listId, expressionId, true);
      var saved1 := ToggledSaved(saved, listId, expressionId, true);
      ToggledLists(lists1, saved1, listId, expressionId, false) == lists
      && ToggledSaved(saved1, listId, expressionId, false) == saved
  {
    var i := FirstIndex(lists, listId);
    var s := saved[expressionId];
    var saved1 := saved[expressionId := Add(s, listId)];
    ToggledAt(lists, saved, listId, expressionId, true);
    var lists1 := lists[i := Adjusted(lists[i], true)];
    FirstIndexByIds(lists, lists1, listId);
    assert Lookup(saved1, expressionId) == Some(Add(s, listId));
    ToggledAt(lists1, saved1, listId, expressionId, false);
    AdjustedUndone(lists[i]);
    assert lists1[i := lists[i]] == lists;
    DeleteAfterAdd(s, listId);
    assert saved[expressionId := s] == saved;
  }

  /** The toggled lists when the count does move. */
  lemma ToggledAt(lists: seq<VocabList>, saved: map<string, seq<string>>, listId: string,
                  expressionId: string, add: bool)
    requires 0 <= FirstIndex(lists, listId)
    requires ShouldAdjust(Lookup(saved, expressionId), listId, add)
    ensures ToggledLists(lists, saved, listId, expressionId, add)
      == lists[FirstIndex(lists, listId) := Adjusted(lists[FirstIndex(lists, listId)], add)]
  {
  }

  /** A removal undoes an addition on a non-negative recorded count. */
  lemma AdjustedUndone(l: VocabList)
    requires l.itemCount.Some? && CountOf(l) >= 0
    ensures Adjusted(Adjusted(l, true), false) == l
  {
  }

  /** `optimisticSetDefault` makes exactly the lists with that id default and
    * changes nothing else about any list. */
  lemma SetDefaultExactly(lists: seq<VocabList>, listId: string)
    ensures var r := DefaultSet(lists, listId);
      |r| == |lists|
      && forall k :: 0 <= k < |lists| ==>
           (r[k].isDefault <==> lists[k].id == listId)
           && r[k].id == lists[k].id && r[k].title == lists[k].title && r[k].itemCount == lists[k].itemCount
  {
  }

  /** With distinct ids and the list present, exactly one list is default. */
  lemma SetDefaultUnique(lists: seq<VocabList>, listId: string)
    requires forall j, k :: 0 <= j < k < |lists| ==> lists[j].id != lists[k].id
    requires exists k :: 0 <= k < |lists| && lists[k].id == listId
    ensures var r := DefaultSet(lists, listId);
      (exists k :: 0 <= k < |r| && r[k].isDefault)
      && forall j, k :: 0 <= j < |r| && 0 <= k < |r| && r[j].isDefault && r[k].isDefault ==> j == k
  {
    var r := DefaultSet(lists, listId);
    var k :| 0 <= k < |lists| && lists[k].id == listId;
    assert r[k].isDefault;
  }

  /** `optimisticUpdateTitle` renames the first list with the id and nothing
    * else; with no such list nothing changes. */
  lemma UpdateTitleFirstOnly(lists: seq<VocabList>, listId: string, title: string)
    ensures var r := TitleUpdated(lists, listId, title);
      |r| == |lists|
      && (forall k :: 0 <= k < |lists| && (lists[k].id != listId || exists j :: 0 <= j < k && lists[j].id == listId)
            ==> r[k] == lists[k])
      && (forall k :: 0 <= k < |lists| && lists[k].id == listId && (forall j :: 0 <= j < k ==> lists[j].id != listId)
            ==> r[k] == lists[k].(title := title))
  {
  }

  /** `optimisticDeleteList` keeps exactly the lists with another id; with no
    * list of that id it changes nothing. */
  lemma DeleteKeepsOthers(lists: seq<VocabList>, listId: string)
    ensures forall l :: l in Deleted(lists, listId) <==> l in lists && l.id != listId
    ensures |Deleted(lists, listId)| <= |lists|
    ensures (forall k :: 0 <= k < |lists| ==> lists[k].id != listId) ==> Deleted(lists, listId) == lists
  {
    forall l ensures l in Deleted(lists, listId) <==> l in lists && l.id != listId {
      FilterMember(lists, (x: VocabList) => x.id != listId, l);
    }
    FilterMember(lists, (x: VocabList) => x.id != listId, VocabList("", "", None, false));
    if forall k :: 0 <= k < |lists| ==> lists[k].id != listId {
      FilterAll(lists, (x: VocabList) => x.id != listId);
    }
  }

  /** Deletion keeps the survivors in order: deleting from a concatenation
    * deletes from each part. */
  lemma DeleteKeepsOrder(a: seq<VocabList>, b: seq<VocabList>, listId: string)
    ensures Deleted(a + b, listId) == Deleted(a, listId) + Deleted(b, listId)
  {
    FilterAppend(a, b, (x: VocabList) => x.id != listId);
  }

  /** The saved set an expression reads back after `syncSavedListIds` holds
    * exactly the given ids, once each. */
  lemma SyncedSavedListIds(saved: map<string, seq<string>>, expressionId: string, listIds: seq<string>)
    ensures var r := SavedListIds(saved[expressionId := FromArray(listIds)], expressionId);
      NoDuplicates(r) && forall v :: v in r <==> v in listIds
  {
  }
}
