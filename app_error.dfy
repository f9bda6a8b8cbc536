/**
 * `types/error.ts`: the error codes, the `AppError` shape and its type guard.
 * An error code is both the message (an i18n key) and the code.
 */
module AppErrors {
  import opened JsValues

  const Unauthorized := "UNAUTHORIZED"

  /** `COMMON_ERROR`, `ACTION_ERROR` and `VOCABULARY_ERROR`, property name to code. */
  const CommonError: map<string, string> := map["UNAUTHORIZED" := Unauthorized]

  const ActionError: map<string, string> := map[
    "UNAUTHORIZED" := CommonError["UNAUTHORIZED"],
    "TOGGLE_FAILED" := "ACTION_TOGGLE_FAILED",
    "SYNC_FAILED" := "ACTION_SYNC_FAILED"]

  const VocabularyError: map<string, string> := map[
    "UNAUTHORIZED" := CommonError["UNAUTHORIZED"],
    "FETCH_FAILED" := "VOCABULARY_FETCH_FAILED",
    "CREATE_FAILED" := "VOCABULARY_CREATE_FAILED",
    "PREMIUM_REQUIRED" := "VOCABULARY_PREMIUM_REQUIRED",
    "ADD_FAILED" := "VOCABULARY_ADD_FAILED",
    "UPDATE_FAILED" := "VOCABULARY_UPDATE_FAILED",
    "REMOVE_FAILED" := "VOCABULARY_REMOVE_FAILED",
    "LIMIT_REACHED" := "VOCABULARY_LIMIT_REACHED",
    "NOT_FOUND" := "VOCABULARY_NOT_FOUND"]

  /** Reading a property of one of the constant objects: a name it does not
    * define reads as `undefined`. */
  function Member(constants: map<string, string>, name: string): (r: JsValue)
    ensures r.Str? <==> name in constants
    ensures name in constants ==> r == Str(constants[name])
  {
    if name in constants then Str(constants[name]) else Undefined
  }

  /** `isAppError`. */
  predicate IsAppError(error: JsValue) {
    IsObject(error) && Get(error, "message").Str?
  }

  /** `createAppError(code)`: an object whose message and code are both `code`.
    * It passes `isAppError` exactly when the code is a string. */
  function CreateAppError(code: JsValue): (e: JsValue)
    ensures IsObject(e)
    ensures Get(e, "message") == code && Get(e, "code") == code
    ensures IsAppError(e) <==> code.Str?
  {
    Obj(map["message" := code, "code" := code])
  }

  /** Every error built from a declared code is an `AppError` carrying that code. */
  lemma DeclaredCodesAreAppErrors(constants: map<string, string>, name: string)
    requires constants == CommonError || constants == ActionError || constants == VocabularyError
    requires name in constants
    ensures IsAppError(CreateAppError(Member(constants, name)))
    ensures Get(CreateAppError(Member(constants, name)), "code") == Str(constants[name])
  {
  }

  /** The three groups share one `UNAUTHORIZED` code, and the codes of the
    * other two groups are pairwise distinct. */
  lemma UnauthorizedShared()
    ensures ActionError["UNAUTHORIZED"] == CommonError["UNAUTHORIZED"] == Unauthorized
    ensures VocabularyError["UNAUTHORIZED"] == CommonError["UNAUTHORIZED"]
    ensures forall a, b :: a in VocabularyError && b in VocabularyError && a != b ==> VocabularyError[a] != VocabularyError[b]
    ensures forall a, b :: a in ActionError && b in ActionError && a != b ==> ActionError[a] != ActionError[b]
  {
  }

  /** Values that are not objects, and objects without a string message, are
    * not `AppError`s. */
  lemma NonErrors(fields: map<string, JsValue>)
    requires "message" !in fields || !fields["message"].Str?
    ensures !IsAppError(Obj(fields))
    ensures !IsAppError(Null) && !IsAppError(Undefined) && !IsAppError(Str("message"))
  {
  }

  // ------------------------------------------- the rate-limit error code

  /** The code `checkRateLimit` throws as written: `COMMON_ERROR` defines no
    * `RATE_LIMIT_EXCEEDED`, so the thrown object has an undefined message
    * and fails `isAppError`. */
  lemma RateLimitErrorAsWritten()
    ensures Member(CommonError, "RATE_LIMIT_EXCEEDED") == Undefined
    ensures !IsAppError(CreateAppError(Member(CommonError, "RATE_LIMIT_EXCEEDED")))
  {
  }

  /** The error `checkRateLimit` throws as written: message and code are both
    * `undefined`, so callers testing `isAppError` do not recognise it. */
  function RateLimitErrorThrown(): (e: JsValue)
    ensures IsObject(e) && !IsAppError(e)
    ensures Get(e, "message") == Undefined && Get(e, "code") == Undefined
  {
    CreateAppError(Member(CommonError, "RATE_LIMIT_EXCEEDED"))
  }

  /** `COMMON_ERROR` with the code the limiter documents. */
  const CommonErrorCorrected: map<string, string> := CommonError["RATE_LIMIT_EXCEEDED" := "RATE_LIMIT_EXCEEDED"]

  /** The error the limiter throws once the code is declared. */
  function RateLimitError(): (e: JsValue)
    ensures IsAppError(e) && Get(e, "code") == Str("RATE_LIMIT_EXCEEDED")
  {
    CreateAppError(Member(CommonErrorCorrected, "RATE_LIMIT_EXCEEDED"))
  }

  /** With the code declared the thrown error is an `AppError`, and the
    * existing code is kept. */
  lemma RateLimitErrorCorrected()
    ensures IsAppError(RateLimitError())
    ensures Get(RateLimitError(), "message") == Str("RATE_LIMIT_EXCEEDED")
    ensures CommonErrorCorrected["UNAUTHORIZED"] == Unauthorized
  {
  }
}
