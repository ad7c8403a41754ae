# Quiz app: shuffling and the quiz session, in Dafny

A model of the logic of the quiz page of a small client-side quiz application
(`app/page.tsx`). The page shows a fixed list of multiple-choice questions in a
random order, each with its options in a random order. It tracks the question
on screen, the chosen answer, the score and whether the quiz is finished.

- `shuffle.dfy`, module `Shuffle`: `shuffleArray`, the Fisher–Yates shuffle.
  `ShuffleArray` copies its input array and swaps in place in a `while` loop
  whose index runs from `length - 1` down to `1`. It is proved equal to the
  specification function `FisherYates` on sequences. The lemmas prove that
  `FisherYates` is a permutation: the same multiset and the same length.
  They also prove that each output position `k` holds input element
  `ShuffleOrder(n, draws)[k]`, where `ShuffleOrder` is a permutation of
  `0 .. n-1`.
- `questions.dfy`, module `Questions`: the `Question` record and
  `shuffleQuestions`. It shuffles the list, then shuffles the options of
  each question of the shuffled list and keeps the other fields.
- `quiz_app.dfy`, module `QuizSession`: class `QuizApp` with the five state
  fields of the component. It has one method per handler, plus the results
  popup's close button. `Valid()` states the session invariant. The list on
  screen is the dataset reordered by a permutation (the ghost field
  `order`), each question with its own options. Once the list is loaded,
  the index is in `[0, N-1]`. Client methods run sessions against these
  contracts, among them a forward-only run of any length.

Randomness: `Math.floor(Math.random() * (i + 1))` is replaced by an oracle.
`draws[i]` is the index drawn when the loop variable is `i`, and
`ValidDraws` requires `0 <= draws[i] <= i < n`. So every swap is between two
in-bounds positions; `Swap` requires this and the verifier checks it at each
call. The `decreases i` clause proves the loop variable strictly decreases.
For `shuffleQuestions`, the draws are one sequence for the question list
plus one per position of the shuffled list. That second group matches the
order of the `map` over the shuffled list.

The dataset (`./data/questions.json`) is a parameter, the constructor's
`data`. Mounting the component is the constructor. It installs a shuffle
of the dataset, the same way `restartQuiz` does.

`correctAnswer` is a string here. `app/types/types.ts` declares it as a
number, but `app/page.tsx` compares it with option strings (lines 46 and
160). The model follows the page.

## Model

| member | source | states |
|---|---|---|
| `Shuffle.ShuffleArray` | app/page.tsx:8-15 | returns the shuffled copy, equal to `FisherYates(input, draws)`, with the input's multiset of elements; it has no `modifies`, so the input array is left as it was |
| `Shuffle.Rounds` | app/page.tsx:10-13 | the loop rounds for `i`, `i-1`, ..., `1` in the source's order, each swapping `i` with its draw; keeps the length |
| `Shuffle.FisherYates` | app/page.tsx:9-14 | the result has the input's length, and inputs of length 0 or 1 come back unchanged because the loop body never runs |
| `Shuffle.Swap` | app/page.tsx:12 | exchanges the elements at two positions that must be in bounds and leaves every other position alone |
| `Shuffle.SwapPermutes` | app/page.tsx:12 | a swap keeps the multiset of elements |
| `Shuffle.RoundsPermutes` | app/page.tsx:10-13 | any number of loop rounds keeps the multiset of elements |
| `Shuffle.FisherYatesPermutes` | app/page.tsx:8-15 | the shuffle returns the same elements with the same multiplicities, and an element occurs in the output exactly when it occurs in the input |
| `Shuffle.RoundsKeepsDistinct` | app/page.tsx:10-13 | loop rounds keep a sequence of distinct elements distinct |
| `Shuffle.RoundsTracks` | app/page.tsx:10-13 | applying the same rounds to a sequence and to a list of positions keeps each element equal to the element at its position |
| `Shuffle.ShuffleOrderIsPermutation` | app/page.tsx:8-15 | the shuffle reorders by a permutation of the indices that depends only on the draws: output `k` is input `ShuffleOrder(n, draws)[k]` |
| `Questions.ShuffleQuestions` | app/page.tsx:18-23 | the shuffled list has as many questions as the input |
| `Questions.ShuffleQuestionsPermutes` | app/page.tsx:18-23 | output question `k` is input question `ShuffleOrder[k]` (a permutation) with the same `id`, `question` and `correctAnswer` and a permutation of its options |
| `Questions.ShuffleQuestionsKeepsAnswers` | app/page.tsx:18-23 | every shuffled question has its correct answer among its options exactly when every input question does; the same holds for "exactly one option is correct" |
| `QuizSession.QuizApp.Current` | app/page.tsx:37 | the question on screen is the dataset question at `order[currentQuestion]`, with its options reordered |
| `QuizSession.QuizApp.constructor` | app/page.tsx:26-35 | after mount, the list is the shuffle of the dataset by the given draws, with `order` the permutation those draws make, the index and score are 0, nothing is selected and the quiz is not finished; the invariant holds |
| `QuizSession.QuizApp.HandleAnswerSelect` | app/page.tsx:40-49 | with an answer already selected nothing changes; otherwise it records the answer and adds 1 to the score exactly when the answer is the current question's correct answer; the index, the finished flag and the list are unchanged, and the score never decreases |
| `QuizSession.QuizApp.HandleNextQuestion` | app/page.tsx:51-58 | before the last question it advances the index by 1 and clears the selection; on the last question it only sets the finished flag; the score never changes and the index stays in `[0, N-1]` |
| `QuizSession.QuizApp.HandlePreviousQuestion` | app/page.tsx:60-65 | after the first question it moves the index back by 1 and clears the selection; on the first question it changes nothing; the score and the finished flag never change |
| `QuizSession.QuizApp.RestartQuiz` | app/page.tsx:67-74 | whatever the state before, it installs the shuffle of the dataset by the given draws, with `order` the permutation those draws make, and resets the index to 0, the selection to none, the score to 0 and the finished flag to false |
| `QuizSession.QuizApp.ClosePopup` | app/page.tsx:114 | clears the finished flag and changes nothing else |
| `QuizSession.ShownQuestionsAnswerable` | app/page.tsx:37-47 | when every dataset question has its correct answer among its options, so does every question the session shows |
| `QuizSession.SingleQuestionRun` | app/page.tsx:40-58 | with one question, choosing its correct answer and pressing Next ends the quiz with score 1 |
| `QuizSession.RevisitWithoutReselecting` | app/page.tsx:51-65 | answering the first of two questions correctly, then Next, Previous, Next, leaves the score at 1 on the second question: going back neither adds nor removes a point (the last Next runs with nothing selected, a state in which the page disables the button) |
| `QuizSession.AnswerInTurn` | app/page.tsx:40-58 | from the first question with nothing selected, choosing an answer and pressing Next for each question in turn ends finished on the last question and adds to the score exactly the number of questions answered correctly; the list is unchanged |
| `QuizSession.ForwardRun` | app/page.tsx:40-58 | a forward-only run that chooses an answer for every question and presses Next each time ends finished on the last question, with the score equal to the number of questions answered correctly |
| `QuizSession.ScoreExceedsQuestionCount` | app/page.tsx:40-65 | with two questions, answering the first question, then twice going forward and back and answering it again, gives score 3, more than the number of questions: the score is not bounded by N |

## Left out

- Rendering and styling (app/page.tsx:76-238) are left out: CSS classes, the loading spinner and the option letter labels.
- The progress-bar width (app/page.tsx:147) is a floating-point percentage. `isLastQuestion` (app/page.tsx:38) only picks the Next button's label. Neither is modelled.
- `Math.random` and `Math.floor` are replaced by the draw oracle. Uniformity of the shuffle is a probabilistic property and is not stated.
- React plumbing (`useState`, `useEffect`) is not modelled. Each handler is one sequential update of the fields. The loading state, seen before the mount effect has installed the list, is not modelled: the constructor is the state after mount.
- The UI gates are not preconditions of the handlers. The Next button is disabled while nothing is selected (app/page.tsx:225), and options cannot be clicked once a result shows (app/page.tsx:175). `HandleNextQuestion`'s contract holds in every valid state, so it also covers the gated ones. `HandleAnswerSelect` has the same guard as the click handler.
- The popup overlay keeps the question buttons from being clicked while the quiz is finished. The model does not encode this, so the handlers may also run while `quizFinished` is true.
- The contents of `./data/questions.json` are not part of this model; the dataset is a parameter. `QuizAppProps` (app/types/types.ts:8-10) is unused by the page and is left out.
- `ShuffleArray` returns the fresh array as a sequence value. The copy is local and nothing else refers to it, so aliasing of the result is not modelled.
