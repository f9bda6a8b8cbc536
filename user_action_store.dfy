/**
 * `store/useUserActionStore.ts`: the signed-in user's saved and learned
 * expression ids, updated optimistically.  As in the vocabulary store, a
 * pending-operation counter keeps server data from overwriting optimistic
 * changes.
 */
module UserActionStore {
  import opened Common
  import opened JsSet
  import opened ActionTypes

  class Store {
    var savedIds: seq<string>
    var learnedIds: seq<string>
    var pendingOps: nat
    var initializedSave: bool
    var initializedLearn: bool

    /** Both id collections are sets. */
    predicate Valid()
      reads this
    {
      NoDuplicates(savedIds) && NoDuplicates(learnedIds)
    }

    constructor ()
      ensures Valid()
      ensures savedIds == [] && learnedIds == [] && pendingOps == 0
      ensures !initializedSave && !initializedLearn
    {
      savedIds := [];
      learnedIds := [];
      pendingOps := 0;
      initializedSave := false;
      initializedLearn := false;
    }

    /** The set an action type selects. */
    function Target(t: ActionType): seq<string>
      reads this
    {
      if t == Save then savedIds else learnedIds
    }

    function Initialized(t: ActionType): bool
      reads this
    {
      if t == Save then initializedSave else initializedLearn
    }

    /** `has`: membership in the set the type selects. */
    function Has(expressionId: string, t: ActionType): (r: bool)
      reads this
      ensures r <==> (t == Save && expressionId in savedIds) || (t == Learn && expressionId in learnedIds)
    {
      expressionId in Target(t)
    }

    /** Sets the target to `ids` as a set, leaving the other alone. */
    method ReplaceTarget(t: ActionType, ids: seq<string>)
      modifies this
      ensures Target(t) == FromArray(ids)
      ensures t == Save ==> learnedIds == old(learnedIds)
      ensures t == Learn ==> savedIds == old(savedIds)
      ensures pendingOps == old(pendingOps)
      ensures initializedSave == old(initializedSave) && initializedLearn == old(initializedLearn)
    {
      var filled := Refill(ids);
      if t == Save {
        savedIds := filled;
      } else {
        learnedIds := filled;
      }
    }

    /** A server snapshot always marks its type initialised, but replaces the
      * set only when no optimistic work is pending. */
    method SyncWithServer(t: ActionType, ids: seq<string>)
      requires Valid()
      modifies this
      ensures Valid()
      ensures Initialized(t)
      ensures (t == Save ==> initializedLearn == old(initializedLearn))
      ensures (t == Learn ==> initializedSave == old(initializedSave))
      ensures pendingOps == old(pendingOps)
      ensures old(pendingOps) > 0 ==> savedIds == old(savedIds) && learnedIds == old(learnedIds)
      ensures old(pendingOps) == 0 ==> Target(t) == FromArray(ids)
      ensures t == Save ==> learnedIds == old(learnedIds)
      ensures t == Learn ==> savedIds == old(savedIds)
    {
      if t == Save {
        initializedSave := true;
      } else {
        initializedLearn := true;
      }
      if pendingOps > 0 {
        return;
      }
      ReplaceTarget(t, ids);
    }

    /** Flips one id in one set and counts the pending operation. */
    method OptimisticToggle(expressionId: string, t: ActionType)
      requires Valid()
      modifies this
      ensures Valid()
      ensures pendingOps == old(pendingOps) + 1
      ensures Target(t) == Toggle(old(Target(t)), expressionId)
      ensures Has(expressionId, t) <==> !old(Has(expressionId, t))
      ensures forall v :: v != expressionId ==> (Has(v, t) <==> old(Has(v, t)))
      ensures t == Save ==> learnedIds == old(learnedIds)
      ensures t == Learn ==> savedIds == old(savedIds)
      ensures initializedSave == old(initializedSave) && initializedLearn == old(initializedLearn)
    {
      pendingOps := pendingOps + 1;
      ToggleFlips(Target(t), expressionId);
      if t == Save {
        savedIds := Toggle(savedIds, expressionId);
      } else {
        learnedIds := Toggle(learnedIds, expressionId);
      }
    }

    /** The counter drops, never below 0; the last pending operation to
      * finish installs the server ids, when given. */
    method ResolveOperation(t: ActionType, serverIds: Option<seq<string>>)
      requires Valid()
      modifies this
      ensures Valid()
      ensures pendingOps == if old(pendingOps) == 0 then 0 else old(pendingOps) - 1
      ensures pendingOps == 0 && serverIds.Some? ==> Target(t) == FromArray(serverIds.value)
      ensures !(pendingOps == 0 && serverIds.Some?) ==> savedIds == old(savedIds) && learnedIds == old(learnedIds)
      ensures t == Save ==> learnedIds == old(learnedIds)
      ensures t == Learn ==> savedIds == old(savedIds)
      ensures initializedSave == old(initializedSave) && initializedLearn == old(initializedLearn)
    {
      pendingOps := if pendingOps == 0 then 0 else pendingOps - 1;
      if pendingOps == 0 && serverIds.Some? {
        ReplaceTarget(t, serverIds.value);
      }
    }
  }
}
