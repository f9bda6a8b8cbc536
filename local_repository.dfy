/**
 * `services/repositories/LocalUserActionRepository.ts`: action ids kept in
 * the browser's local storage, one JSON array per action type.  Storage is a
 * map from key to stored value; without a window there is no storage.
 */
module LocalRepository {
  import opened Common
  import opened JsSet
  import opened ActionTypes

  /** What a storage entry holds: a JSON array of ids, or anything that does
    * not parse to one (including the empty string). */
  datatype StoredValue = IdArray(ids: seq<string>) | Unusable

  const StoragePrefix: string := "mango_actions_"

  function StorageKey(t: ActionType): (key: string)
    ensures StoragePrefix <= key
  {
    StoragePrefix + TypeName(t)
  }

  /** Each type has its own key. */
  lemma StorageKeysDistinct(t: ActionType, u: ActionType)
    ensures StorageKey(t) == StorageKey(u) <==> t == u
  {
    if StorageKey(t) == StorageKey(u) {
      assert TypeName(t) == StorageKey(t)[|StoragePrefix|..];
      assert TypeName(u) == StorageKey(u)[|StoragePrefix|..];
      TypeNameInjective(t, u);
    }
  }

  /** `getStoredIds`: the stored array as a set; an absent or unusable
    * entry, or no window, reads as the empty set. */
  function StoredIds(hasWindow: bool, storage: map<string, StoredValue>, t: ActionType): (r: seq<string>)
    ensures NoDuplicates(r)
    ensures !hasWindow ==> r == []
  {
    if !hasWindow then []
    else
      var key := StorageKey(t);
      if key !in storage then []
      else match storage[key]
        case IdArray(ids) => FromArray(ids)
        case Unusable => []
  }

  /** Writing a set under one type's key reads back as that set, and leaves
    * the other type's reading alone. */
  lemma ReadAfterWrite(storage: map<string, StoredValue>, t: ActionType, ids: seq<string>, u: ActionType)
    requires NoDuplicates(ids)
    ensures StoredIds(true, storage[StorageKey(t) := IdArray(ids)], u)
      == if u == t then ids else StoredIds(true, storage, u)
  {
    StorageKeysDistinct(t, u);
    FromArrayOfSet(ids);
  }

  class Repository {
    const hasWindow: bool
    var storage: map<string, StoredValue>

    constructor (hasWindow: bool, storage: map<string, StoredValue>)
      ensures this.hasWindow == hasWindow && this.storage == storage
    {
      this.hasWindow := hasWindow;
      this.storage := storage;
    }

    /** `saveStoredIds`. */
    method SaveStoredIds(t: ActionType, ids: seq<string>)
      modifies this
      ensures storage == if hasWindow then old(storage)[StorageKey(t) := IdArray(ids)] else old(storage)
    {
      if !hasWindow {
        return;
      }
      storage := storage[StorageKey(t) := IdArray(ids)];
    }

    method GetActions(t: ActionType) returns (ids: seq<string>)
      ensures ids == StoredIds(hasWindow, storage, t)
    {
      ids := StoredIds(hasWindow, storage, t);
    }

    method HasAction(expressionId: string, t: ActionType) returns (r: bool)
      ensures r <==> expressionId in StoredIds(hasWindow, storage, t)
    {
      var ids := StoredIds(hasWindow, storage, t);
      r := expressionId in ids;
    }

    /** Loads the set, flips the id, and writes the set back under the same
      * key, so the type now reads as the toggled set; other keys are
      * untouched, and without a window nothing happens. */
    method ToggleAction(expressionId: string, t: ActionType)
      modifies this
      ensures storage == if hasWindow
        then old(storage)[StorageKey(t) := IdArray(Toggle(StoredIds(hasWindow, old(storage), t), expressionId))]
        else old(storage)
      ensures hasWindow ==> StoredIds(hasWindow, storage, t) == Toggle(StoredIds(hasWindow, old(storage), t), expressionId)
      ensures forall u :: u != t ==> StoredIds(hasWindow, storage, u) == StoredIds(hasWindow, old(storage), u)
    {
      var ids := StoredIds(hasWindow, storage, t);
      ToggleFlips(ids, expressionId);
      if expressionId in ids {
        ids := Delete(ids, expressionId);
      } else {
        ids := Add(ids, expressionId);
      }
      SaveStoredIds(t, ids);
      if hasWindow {
        forall u ensures StoredIds(true, old(storage)[StorageKey(t) := IdArray(ids)], u)
                         == if u == t then ids else StoredIds(true, old(storage), u) {
          ReadAfterWrite(old(storage), t, ids, u);
        }
      }
    }
  }
}
