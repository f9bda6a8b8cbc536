/**
 * `services/repositories/UserActionRepository.ts`: the two kinds of user
 * action on an expression.
 */
module ActionTypes {
  datatype ActionType = Save | Learn

  /** The type's name as the sources spell it. */
  function TypeName(t: ActionType): (name: string)
    ensures name == "save" || name == "learn"
  {
    match t
    case Save => "save"
    case Learn => "learn"
  }

  /** Different types have different names. */
  lemma TypeNameInjective(t: ActionType, u: ActionType)
    ensures TypeName(t) == TypeName(u) <==> t == u
  {
  }
}
