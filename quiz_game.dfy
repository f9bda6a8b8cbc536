/**
 * `hooks/quiz/useQuizGame.ts`: the quiz session as a reducer over an
 * immutable state, and the two handlers that decide what to dispatch.
 * The expressions are left abstract (type parameter `E`).
 */
module QuizGame {
  import opened Common

  datatype QuizStatus = Playing | Summary

  datatype HistoryItem<E> = HistoryItem(expression: E, isCorrect: bool)

  datatype QuizState<E> = QuizState(
    expressions: seq<E>,
    currentIndex: int,
    score: int,
    status: QuizStatus,
    selectedAnswer: Option<string>,
    isAnswerChecked: bool,
    history: seq<HistoryItem<E>>)

  /** The four actions, and any other `type` the reducer may be handed. */
  datatype QuizAction<E> =
    | Restore(payload: QuizState<E>)
    | Submit(answer: string, isCorrect: bool, currentExpression: E)
    | Next
    | Finish
    | Unknown

  /** `quizReducer`. */
  function QuizReducer<E>(state: QuizState<E>, action: QuizAction<E>): QuizState<E> {
    match action
    case Restore(payload) => payload
    case Submit(answer, isCorrect, currentExpression) =>
      if state.isAnswerChecked then state
      else state.(
        selectedAnswer := Some(answer),
        isAnswerChecked := true,
        score := if isCorrect then state.score + 1 else state.score,
        history := state.history + [HistoryItem(currentExpression, isCorrect)])
    case Next =>
      state.(currentIndex := state.currentIndex + 1, selectedAnswer := None, isAnswerChecked := false)
    case Finish => state.(status := Summary)
    case Unknown => state
  }

  /** The state `useReducer` starts from. */
  function InitialState<E>(initialExpressions: seq<E>): (s: QuizState<E>)
    ensures s.expressions == initialExpressions
    ensures s.currentIndex == 0 && s.score == 0 && s.status == Playing
    ensures s.selectedAnswer == None && !s.isAnswerChecked && s.history == []
  {
    QuizState(initialExpressions, 0, 0, Playing, None, false, [])
  }

  /** What one action does, field by field. */
  lemma SubmitOnChecked<E>(state: QuizState<E>, answer: string, isCorrect: bool, e: E)
    requires state.isAnswerChecked
    ensures QuizReducer(state, Submit(answer, isCorrect, e)) == state
  {
  }

  lemma SubmitAccepted<E>(state: QuizState<E>, answer: string, isCorrect: bool, e: E)
    requires !state.isAnswerChecked
    ensures var s := QuizReducer(state, Submit(answer, isCorrect, e));
      s.selectedAnswer == Some(answer) && s.isAnswerChecked
      && s.score == state.score + (if isCorrect then 1 else 0)
      && |s.history| == |state.history| + 1 && s.history[..|state.history|] == state.history
      && s.history[|state.history|] == HistoryItem(e, isCorrect)
      && s.expressions == state.expressions && s.currentIndex == state.currentIndex
      && s.status == state.status
  {
    var s := QuizReducer(state, Submit(answer, isCorrect, e));
    assert s.history[..|state.history|] == state.history;
  }

  lemma NextMoves<E>(state: QuizState<E>)
    ensures var s := QuizReducer(state, Next);
      s.currentIndex == state.currentIndex + 1 && s.selectedAnswer == None && !s.isAnswerChecked
      && s.score == state.score && s.history == state.history
      && s.expressions == state.expressions && s.status == state.status
  {
  }

  lemma FinishOnlySummarises<E>(state: QuizState<E>)
    ensures QuizReducer(state, Finish) == state.(status := Summary)
  {
  }

  lemma RestoreAndUnknown<E>(state: QuizState<E>, payload: QuizState<E>)
    ensures QuizReducer(state, Restore(payload)) == payload
    ensures QuizReducer(state, Unknown) == state
  {
  }

  // ------------------------------------------------------------ invariants

  /** The number of correct answers in a history. */
  function CorrectCount<E>(history: seq<HistoryItem<E>>): (n: nat)
    ensures n <= |history|
    decreases |history|
  {
    if history == [] then 0
    else CorrectCount(history[..|history| - 1]) + (if history[|history| - 1].isCorrect then 1 else 0)
  }

  /** What the reducer keeps true: the score counts the correct answers of
    * the history, a checked answer has a selection, and each question is
    * answered at most once (one history entry per question passed, plus one
    * for the current question once checked). */
  predicate Consistent<E>(s: QuizState<E>) {
    s.score == CorrectCount(s.history)
    && (s.isAnswerChecked ==> s.selectedAnswer.Some?)
    && 0 <= s.currentIndex
    && |s.history| <= s.currentIndex + (if s.isAnswerChecked then 1 else 0)
  }

  lemma InitialConsistent<E>(initialExpressions: seq<E>)
    ensures Consistent(InitialState(initialExpressions))
  {
  }

  /** Every action but a restore of an inconsistent state keeps the state
    * consistent. */
  lemma ReducerKeepsConsistent<E>(state: QuizState<E>, action: QuizAction<E>)
    requires Consistent(state)
    requires action.Restore? ==> Consistent(action.payload)
    ensures Consistent(QuizReducer(state, action))
  {
    if action.Submit? && !state.isAnswerChecked {
      var s := QuizReducer(state, action);
      assert s.history[..|s.history| - 1] == state.history;
    }
  }

  /** The score never exceeds the number of answers given. */
  lemma ScoreBounded<E>(s: QuizState<E>)
    requires Consistent(s)
    ensures 0 <= s.score <= |s.history|
  {
  }

  /** The state after dispatching a sequence of actions. */
  function Run<E>(s: QuizState<E>, actions: seq<QuizAction<E>>): QuizState<E>
    decreases |actions|
  {
    if actions == [] then s else Run(QuizReducer(s, actions[0]), actions[1..])
  }

  /** A session that starts from the initial state and restores only consistent
    * states stays consistent, so its score never exceeds its history. */
  lemma {:induction false} RunKeepsConsistent<E>(s: QuizState<E>, actions: seq<QuizAction<E>>)
    requires Consistent(s)
    requires forall k :: 0 <= k < |actions| && actions[k].Restore? ==> Consistent(actions[k].payload)
    ensures Consistent(Run(s, actions))
    ensures 0 <= Run(s, actions).score <= |Run(s, actions).history|
    decreases |actions|
  {
    if actions != [] {
      ReducerKeepsConsistent(s, actions[0]);
      var rest := actions[1..];
      assert forall k :: 0 <= k < |rest| ==> rest[k] == actions[k + 1];
      RunKeepsConsistent(QuizReducer(s, actions[0]), rest);
    }
  }

  // -------------------------------------------------------------- handlers

  /** `handleNext`: the next question while there is one, else the summary. */
  function HandleNext<E>(state: QuizState<E>): QuizAction<E> {
    if state.currentIndex < |state.expressions| - 1 then Next else Finish
  }

  /** `handleAnswerSelect`: nothing once the answer is checked, else a submit
    * that is correct exactly when the label is the quiz's answer. */
  function HandleAnswerSelect<E>(state: QuizState<E>, optionLabel: string, quizAnswer: string, currentExpression: E): Option<QuizAction<E>> {
    if state.isAnswerChecked then None
    else Some(Submit(optionLabel, optionLabel == quizAnswer, currentExpression))
  }

  /** `handleNext` moves on exactly while the index is below the last one, and
    * keeps the index on a question. */
  lemma HandleNextStaysInRange<E>(state: QuizState<E>)
    requires 0 <= state.currentIndex < |state.expressions|
    ensures HandleNext(state) == Next <==> state.currentIndex < |state.expressions| - 1
    ensures HandleNext(state) == Finish <==> state.currentIndex == |state.expressions| - 1
    ensures var s := QuizReducer(state, HandleNext(state));
      0 <= s.currentIndex < |s.expressions|
      && (s.status == Summary || s.currentIndex == state.currentIndex + 1)
  {
  }

  /** With no expressions `handleNext` finishes at once (`length - 1` is -1). */
  lemma HandleNextEmpty<E>(state: QuizState<E>)
    requires state.expressions == [] && state.currentIndex == 0
    ensures HandleNext(state) == Finish
  {
  }

  /** Selecting an answer scores a point exactly when it is the right one and
    * the question is still open, and records one answer. */
  lemma AnswerSelectScores<E>(state: QuizState<E>, optionLabel: string, quizAnswer: string, e: E)
    requires !state.isAnswerChecked
    ensures var a := HandleAnswerSelect(state, optionLabel, quizAnswer, e);
      a.Some? && var s := QuizReducer(state, a.value);
      (s.score == state.score + 1 <==> optionLabel == quizAnswer)
      && |s.history| == |state.history| + 1 && s.selectedAnswer == Some(optionLabel)
  {
  }

  /** Once checked, selecting again dispatches nothing. */
  lemma AnswerSelectOnce<E>(state: QuizState<E>, optionLabel: string, quizAnswer: string, e: E)
    requires state.isAnswerChecked
    ensures HandleAnswerSelect(state, optionLabel, quizAnswer, e) == None
  {
  }
}
