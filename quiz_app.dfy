/** The quiz session state of `QuizApp` (app/page.tsx) and its handlers.
    Every handler is one atomic update of the five state fields. */
module QuizSession {
  import opened Shuffle
  import opened Questions

  datatype Option<T> = None | Some(value: T)

  class QuizApp {
    /** The fixed dataset (`questionsData`). */
    const questionsData: seq<Question>

    var shuffledQuestions: seq<Question>
    var currentQuestion: nat
    var selectedAnswer: Option<string>
    var score: nat
    var quizFinished: bool

    /** Where each shown question comes from in the dataset. */
    ghost var order: seq<nat>

    /** The shown list is the dataset reordered, each question with its own
        options in some order, and the index points into it once it is
        non-empty. */
    ghost predicate Valid()
      reads this
    {
      && |shuffledQuestions| == |questionsData|
      && (shuffledQuestions == [] ==> currentQuestion == 0)
      && (shuffledQuestions != [] ==> currentQuestion < |shuffledQuestions|)
      && IsPermutation(order, |questionsData|)
      && (forall k :: 0 <= k < |shuffledQuestions| ==>
            SameUpToOptions(shuffledQuestions[k], questionsData[order[k]]))
    }

    /** The question on screen (`shuffledQuestions[currentQuestion]`). */
    function Current(): (q: Question)
      reads this
      requires Valid() && shuffledQuestions != []
      ensures SameUpToOptions(q, questionsData[order[currentQuestion]])
    {
      shuffledQuestions[currentQuestion]
    }

    /** The component after mount: the effect has installed a shuffle of the
        dataset, and the other fields hold their initial values. */
    constructor (data: seq<Question>, questionDraws: seq<nat>, optionDraws: seq<seq<nat>>)
      requires DrawsFit(data, questionDraws, optionDraws)
      ensures Valid()
      ensures questionsData == data
      ensures shuffledQuestions == ShuffleQuestions(data, questionDraws, optionDraws)
      ensures order == ShuffleOrder(|data|, questionDraws)
      ensures currentQuestion == 0 && selectedAnswer == None && score == 0 && !quizFinished
    {
      questionsData := data;
      shuffledQuestions := ShuffleQuestions(data, questionDraws, optionDraws);
      order := ShuffleOrder(|data|, questionDraws);
      currentQuestion := 0;
      selectedAnswer := None;
      score := 0;
      quizFinished := false;
      ShuffleQuestionsPermutes(data, questionDraws, optionDraws);
    }

    /** `handleAnswerSelect`: a second selection is ignored; the first one is
        recorded and scores a point exactly when it is the correct answer.
        Only the first case reads the current question, so only it needs the
        list to be loaded. */
    method HandleAnswerSelect(answer: string)
      requires Valid()
      requires selectedAnswer == None ==> shuffledQuestions != []
      modifies this
      ensures Valid()
      ensures old(selectedAnswer) != None ==> unchanged(this)
      ensures old(selectedAnswer) == None ==>
        && selectedAnswer == Some(answer)
        && score == old(score) + (if answer == old(Current()).correctAnswer then 1 else 0)
        && shuffledQuestions == old(shuffledQuestions) && order == old(order)
        && currentQuestion == old(currentQuestion) && quizFinished == old(quizFinished)
      ensures score >= old(score)
    {
      if selectedAnswer != None {
        return;
      }
      selectedAnswer := Some(answer);
      if answer == shuffledQuestions[currentQuestion].correctAnswer {
        score := score + 1;
      }
    }

    /** `handleNextQuestion`: move to the next question with nothing selected,
        or, on the last question, only mark the quiz finished. */
    method HandleNextQuestion()
      requires Valid()
      modifies this
      ensures Valid()
      ensures old(currentQuestion) + 1 < |shuffledQuestions| ==>
        && currentQuestion == old(currentQuestion) + 1
        && selectedAnswer == None
        && quizFinished == old(quizFinished)
      ensures old(currentQuestion) + 1 >= |shuffledQuestions| ==>
        && currentQuestion == old(currentQuestion)
        && selectedAnswer == old(selectedAnswer)
        && quizFinished
      ensures score == old(score) && shuffledQuestions == old(shuffledQuestions) && order == old(order)
    {
      if currentQuestion < |shuffledQuestions| - 1 {
        currentQuestion := currentQuestion + 1;
        selectedAnswer := None;
      } else {
        quizFinished := true;
      }
    }

    /** `handlePreviousQuestion`: move back with nothing selected; on the first
        question, do nothing. Never touches the score or the finished flag. */
    method HandlePreviousQuestion()
      requires Valid()
      modifies this
      ensures Valid()
      ensures old(currentQuestion) > 0 ==>
        currentQuestion == old(currentQuestion) - 1 && selectedAnswer == None
      ensures old(currentQuestion) == 0 ==> unchanged(this)
      ensures score == old(score) && quizFinished == old(quizFinished)
      ensures shuffledQuestions == old(shuffledQuestions) && order == old(order)
    {
      if currentQuestion > 0 {
        currentQuestion := currentQuestion - 1;
        selectedAnswer := None;
      }
    }

    /** `restartQuiz`: install a fresh shuffle of the dataset and reset the
        index, the selection, the score and the finished flag, whatever the
        state before. */
    method RestartQuiz(questionDraws: seq<nat>, optionDraws: seq<seq<nat>>)
      requires Valid()
      requires DrawsFit(questionsData, questionDraws, optionDraws)
      modifies this
      ensures Valid()
      ensures shuffledQuestions == ShuffleQuestions(questionsData, questionDraws, optionDraws)
      ensures order == ShuffleOrder(|questionsData|, questionDraws)
      ensures currentQuestion == 0 && selectedAnswer == None && score == 0 && !quizFinished
    {
      shuffledQuestions := ShuffleQuestions(questionsData, questionDraws, optionDraws);
      order := ShuffleOrder(|questionsData|, questionDraws);
      currentQuestion := 0;
      selectedAnswer := None;
      score := 0;
      quizFinished := false;
      ShuffleQuestionsPermutes(questionsData, questionDraws, optionDraws);
    }

    /** The results popup's close button: hide the popup, keep everything else. */
    method ClosePopup()
      requires Valid()
      modifies this
      ensures Valid()
      ensures !quizFinished
      ensures shuffledQuestions == old(shuffledQuestions) && order == old(order)
      ensures currentQuestion == old(currentQuestion) && selectedAnswer == old(selectedAnswer)
      ensures score == old(score)
    {
      quizFinished := false;
    }
  }

  /** When the dataset has every correct answer among its options, so has
      every question the session can show. */
  lemma ShownQuestionsAnswerable(app: QuizApp, k: nat)
    requires app.Valid() && k < |app.shuffledQuestions|
    requires forall m :: 0 <= m < |app.questionsData| ==> Answerable(app.questionsData[m])
    ensures Answerable(app.shuffledQuestions[k])
  {
    var q := app.shuffledQuestions[k];
    assert SameUpToOptions(q, app.questionsData[app.order[k]]);
    assert q.correctAnswer in multiset(q.options);
  }

  /** One question: choosing its correct answer scores 1, and Next on the last
      question finishes the quiz with that score. */
  method SingleQuestionRun(q: Question, questionDraws: seq<nat>, optionDraws: seq<seq<nat>>)
    returns (score: nat, finished: bool)
    requires DrawsFit([q], questionDraws, optionDraws)
    ensures score == 1 && finished
  {
    var app := new QuizApp([q], questionDraws, optionDraws);
    app.HandleAnswerSelect(q.correctAnswer);
    app.HandleNextQuestion();
    score, finished := app.score, app.quizFinished;
  }

  /** Going back and forth without choosing again neither adds nor removes a
      point: answer the first question correctly, go to the second, back to
      the first, and forward again. The last Next runs with nothing selected,
      because Previous cleared the selection; the page disables the Next
      button in that state, so this run is reached only by calling the
      handlers directly, not by clicking. */
  method RevisitWithoutReselecting(data: seq<Question>, questionDraws: seq<nat>, optionDraws: seq<seq<nat>>)
    returns (score: nat, index: nat)
    requires |data| == 2 && DrawsFit(data, questionDraws, optionDraws)
    ensures score == 1 && index == 1
  {
    var app := new QuizApp(data, questionDraws, optionDraws);
    app.HandleAnswerSelect(app.shuffledQuestions[0].correctAnswer);
    app.HandleNextQuestion();
    app.HandlePreviousQuestion();
    app.HandleNextQuestion();
    score, index := app.score, app.currentQuestion;
  }

  /** The score is not bounded by the number of questions: going back clears
      the selection, so the same question can be answered, and scored, again. */
  method ScoreExceedsQuestionCount(data: seq<Question>, questionDraws: seq<nat>, optionDraws: seq<seq<nat>>)
    returns (score: nat)
    requires |data| == 2 && DrawsFit(data, questionDraws, optionDraws)
    ensures score == 3 && score > |data|
  {
    var app := new QuizApp(data, questionDraws, optionDraws);
    var answer := app.shuffledQuestions[0].correctAnswer;
    app.HandleAnswerSelect(answer);
    app.HandleNextQuestion();
    app.HandlePreviousQuestion();
    app.HandleAnswerSelect(answer);
    app.HandleNextQuestion();
    app.HandlePreviousQuestion();
    app.HandleAnswerSelect(answer);
    score := app.score;
  }

  /** The number of positions `k` among the first `|answers|` where
      `answers[k]` is the correct answer of `qs[k]`. */
  function CountCorrect(qs: seq<Question>, answers: seq<string>): (n: nat)
    requires |answers| <= |qs|
    ensures n <= |answers|
    decreases |answers|
  {
    if answers == [] then 0
    else
      var last := |answers| - 1;
      CountCorrect(qs, answers[..last]) + (if answers[last] == qs[last].correctAnswer then 1 else 0)
  }

  /** Extending the answers by one adds the point for that one answer
      (a proof helper for `ForwardRun`). */
  lemma CountCorrectStep(qs: seq<Question>, answers: seq<string>, k: nat)
    requires k < |answers| <= |qs|
    ensures CountCorrect(qs, answers[..k + 1])
         == CountCorrect(qs, answers[..k]) + (if answers[k] == qs[k].correctAnswer then 1 else 0)
  {
    assert answers[..k + 1][..k] == answers[..k];
  }

  /** Choose `answers[k]` for question `k` and press Next, for every
      question in turn, starting on the first question with nothing selected
      and the quiz not finished. Each correct answer adds one point. */
  method AnswerInTurn(app: QuizApp, answers: seq<string>)
    requires app.Valid() && |answers| == |app.shuffledQuestions| > 0
    requires app.currentQuestion == 0 && app.selectedAnswer == None && !app.quizFinished
    modifies app
    ensures app.Valid() && app.shuffledQuestions == old(app.shuffledQuestions)
    ensures app.quizFinished && app.currentQuestion == |answers| - 1
    ensures app.score == old(app.score) + CountCorrect(app.shuffledQuestions, answers)
  {
    ghost var shown := app.shuffledQuestions;
    var n := |answers|;
    var k := 0;
    while k < n
      invariant 0 <= k <= n
      invariant app.Valid() && app.shuffledQuestions == shown && |shown| == n
      invariant app.score == old(app.score) + CountCorrect(shown, answers[..k])
      invariant k < n ==> app.currentQuestion == k && app.selectedAnswer == None && !app.quizFinished
      invariant k == n ==> app.currentQuestion == n - 1 && app.quizFinished
    {
      CountCorrectStep(shown, answers, k);
      assert app.Current() == shown[k];
      ghost var before := app.score;
      app.HandleAnswerSelect(answers[k]);
      assert app.score == before + (if answers[k] == shown[k].correctAnswer then 1 else 0);
      app.HandleNextQuestion();
      k := k + 1;
    }
    assert answers[..n] == answers;
  }

  /** A forward-only run: from the state after mount, choose `answers[k]` for
      question `k` and press Next, for every question in turn. The quiz ends
      finished on the last question, with the score equal to the number of
      questions whose chosen answer was the correct one. */
  method ForwardRun(data: seq<Question>, questionDraws: seq<nat>, optionDraws: seq<seq<nat>>, answers: seq<string>)
    returns (score: nat, finished: bool, index: nat)
    requires DrawsFit(data, questionDraws, optionDraws)
    requires |answers| == |data| > 0
    ensures finished && index == |data| - 1
    ensures score == CountCorrect(ShuffleQuestions(data, questionDraws, optionDraws), answers)
  {
    var app := new QuizApp(data, questionDraws, optionDraws);
    AnswerInTurn(app, answers);
    score, finished, index := app.score, app.quizFinished, app.currentQuestion;
  }
}
