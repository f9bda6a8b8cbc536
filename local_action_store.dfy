/**
 * `store/useLocalActionStore.ts`: a guest's actions kept in the browser.
 * The state holds one set per kind (`like`, `save`, `learn`); it is
 * persisted as arrays and read back into sets.
 */
module LocalActionStore {
  import opened Common
  import opened JsSet
  import opened ActionTypes

  /** The `actions` record: one set per kind. */
  datatype Actions = Actions(like: seq<string>, save: seq<string>, learn: seq<string>)

  /** `actions[type]`; `toggleAction` is only ever given `save` or `learn`. */
  function Get(a: Actions, t: ActionType): seq<string> {
    match t
    case Save => a.save
    case Learn => a.learn
  }

  predicate ValidActions(a: Actions) {
    NoDuplicates(a.like) && NoDuplicates(a.save) && NoDuplicates(a.learn)
  }

  /** The persisted form (`partialize`): each set as an array. */
  datatype PersistedActions = PersistedActions(like: Option<seq<string>>, save: Option<seq<string>>,
                                               learn: Option<seq<string>>)

  function Partialize(a: Actions): PersistedActions {
    PersistedActions(Some(a.like), Some(a.save), Some(a.learn))
  }

  /** `persisted || []`. */
  function OrEmpty(o: Option<seq<string>>): seq<string> {
    if o.Some? then o.value else []
  }

  /** `merge`: the persisted arrays become sets; a missing one becomes empty. */
  function Merge(p: PersistedActions): (a: Actions)
    ensures ValidActions(a)
    ensures p.like.None? ==> a.like == []
    ensures p.save.None? ==> a.save == []
    ensures p.learn.None? ==> a.learn == []
  {
    Actions(FromArray(OrEmpty(p.like)), FromArray(OrEmpty(p.save)), FromArray(OrEmpty(p.learn)))
  }

  /** Persisting and reading back reproduces the three sets. */
  lemma PersistRoundTrip(a: Actions)
    requires ValidActions(a)
    ensures Merge(Partialize(a)) == a
  {
    FromArrayOfSet(a.like);
    FromArrayOfSet(a.save);
    FromArrayOfSet(a.learn);
  }

  /** Reading back persisted arrays keeps exactly their elements. */
  lemma MergeMembers(p: PersistedActions)
    ensures forall v :: v in Merge(p).like <==> v in OrEmpty(p.like)
    ensures forall v :: v in Merge(p).save <==> v in OrEmpty(p.save)
    ensures forall v :: v in Merge(p).learn <==> v in OrEmpty(p.learn)
  {
  }

  class Store {
    var actions: Actions

    constructor ()
      ensures actions == Actions([], [], [])
    {
      actions := Actions([], [], []);
    }

    /** Copies the type's set, flips the id in the copy, and installs a new
      * record in which only that type's set differs. */
    method ToggleAction(expressionId: string, t: ActionType)
      requires ValidActions(actions)
      modifies this
      ensures ValidActions(actions)
      ensures Get(actions, t) == Toggle(Get(old(actions), t), expressionId)
      ensures actions.like == old(actions).like
      ensures forall u :: u != t ==> Get(actions, u) == Get(old(actions), u)
    {
      var newSet := Get(actions, t);
      ToggleFlips(newSet, expressionId);
      if expressionId in newSet {
        newSet := Delete(newSet, expressionId);
      } else {
        newSet := Add(newSet, expressionId);
      }
      actions := if t == Save then actions.(save := newSet) else actions.(learn := newSet);
    }

    /** `getActions`: the type's ids as an array. */
    function GetActions(t: ActionType): seq<string>
      reads this
    {
      Get(actions, t)
    }

    /** `hasAction` agrees with `getActions`. */
    function HasAction(expressionId: string, t: ActionType): (r: bool)
      reads this
      ensures r <==> expressionId in GetActions(t)
    {
      expressionId in Get(actions, t)
    }

    /** What is written to storage. */
    function Persisted(): PersistedActions
      reads this
    {
      Partialize(actions)
    }

    /** Rehydration: the persisted sets replace the actions. */
    method Rehydrate(p: PersistedActions)
      modifies this
      ensures actions == Merge(p)
    {
      actions := Merge(p);
    }
  }

  /** Toggling the same id twice restores the members of the set, and the set
    * itself when the id was absent. */
  lemma ToggleTwiceRestores(a: Actions, expressionId: string, t: ActionType)
    ensures forall v :: v in Toggle(Toggle(Get(a, t), expressionId), expressionId) <==> v in Get(a, t)
    ensures expressionId !in Get(a, t) ==> Toggle(Toggle(Get(a, t), expressionId), expressionId) == Get(a, t)
  {
    ToggleTwice(Get(a, t), expressionId);
  }
}
