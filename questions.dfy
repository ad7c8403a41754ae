/** Quiz questions and `shuffleQuestions` (app/page.tsx). */
module Questions {
  import opened Shuffle

  /** A quiz item (app/types/types.ts). The type file declares `correctAnswer`
      as a number, but app/page.tsx compares it with option strings, so the
      model keeps it as the text of the correct option. */
  datatype Question = Question(id: int, question: string, options: seq<string>, correctAnswer: string)

  /** The correct answer is one of the options. */
  predicate Answerable(q: Question) {
    q.correctAnswer in q.options
  }

  /** The correct answer is exactly one of the options. */
  predicate UniquelyAnswerable(q: Question) {
    multiset(q.options)[q.correctAnswer] == 1
  }

  /** `p` is `q` with its options reordered and every other field kept. */
  predicate SameUpToOptions(p: Question, q: Question) {
    && p.id == q.id
    && p.question == q.question
    && p.correctAnswer == q.correctAnswer
    && multiset(p.options) == multiset(q.options)
  }

  /** Draws for the option shuffles: one draw sequence per position of the
      shuffled question list, fitting that question's option count. */
  predicate OptionDrawsFit(ps: seq<Question>, optionDraws: seq<seq<nat>>) {
    |optionDraws| == |ps| && forall k :: 0 <= k < |ps| ==> ValidDraws(optionDraws[k], |ps[k].options|)
  }

  predicate DrawsFit(qs: seq<Question>, questionDraws: seq<nat>, optionDraws: seq<seq<nat>>) {
    ValidDraws(questionDraws, |qs|) && OptionDrawsFit(FisherYates(qs, questionDraws), optionDraws)
  }

  /** `shuffleQuestions`: shuffle the list, then shuffle the options of each
      question of the shuffled list, keeping its other fields. */
  function ShuffleQuestions(qs: seq<Question>, questionDraws: seq<nat>, optionDraws: seq<seq<nat>>): (r: seq<Question>)
    requires DrawsFit(qs, questionDraws, optionDraws)
    ensures |r| == |qs|
  {
    var ps := FisherYates(qs, questionDraws);
    seq(|ps|, k requires 0 <= k < |ps| => ps[k].(options := FisherYates(ps[k].options, optionDraws[k])))
  }

  /** The shuffled list is the input list reordered by a permutation, each
      question keeping its id, text and correct answer and getting back its
      own options in some order. */
  lemma ShuffleQuestionsPermutes(qs: seq<Question>, questionDraws: seq<nat>, optionDraws: seq<seq<nat>>)
    requires DrawsFit(qs, questionDraws, optionDraws)
    ensures IsPermutation(ShuffleOrder(|qs|, questionDraws), |qs|)
    ensures forall k :: 0 <= k < |qs| ==>
      SameUpToOptions(ShuffleQuestions(qs, questionDraws, optionDraws)[k], qs[ShuffleOrder(|qs|, questionDraws)[k]])
  {
    var ps := FisherYates(qs, questionDraws);
    var r := ShuffleQuestions(qs, questionDraws, optionDraws);
    ShuffleOrderIsPermutation(qs, questionDraws);
    forall k | 0 <= k < |qs|
      ensures SameUpToOptions(r[k], qs[ShuffleOrder(|qs|, questionDraws)[k]])
    {
      FisherYatesPermutes(ps[k].options, optionDraws[k]);
    }
  }

  /** Shuffling keeps every question answerable, and loses no question: the
      shuffled list is all answerable exactly when the input is. The same
      holds for "exactly one option is correct". */
  lemma ShuffleQuestionsKeepsAnswers(qs: seq<Question>, questionDraws: seq<nat>, optionDraws: seq<seq<nat>>)
    requires DrawsFit(qs, questionDraws, optionDraws)
    ensures (forall k :: 0 <= k < |qs| ==> Answerable(ShuffleQuestions(qs, questionDraws, optionDraws)[k]))
        <==> (forall m :: 0 <= m < |qs| ==> Answerable(qs[m]))
    ensures (forall k :: 0 <= k < |qs| ==> UniquelyAnswerable(ShuffleQuestions(qs, questionDraws, optionDraws)[k]))
        <==> (forall m :: 0 <= m < |qs| ==> UniquelyAnswerable(qs[m]))
  {
    var r := ShuffleQuestions(qs, questionDraws, optionDraws);
    var p := ShuffleOrder(|qs|, questionDraws);
    ShuffleQuestionsPermutes(qs, questionDraws, optionDraws);
    forall k | 0 <= k < |qs|
      ensures Answerable(r[k]) <==> Answerable(qs[p[k]])
      ensures UniquelyAnswerable(r[k]) <==> UniquelyAnswerable(qs[p[k]])
    {
      assert r[k].correctAnswer in r[k].options <==> r[k].correctAnswer in multiset(r[k].options);
      assert qs[p[k]].correctAnswer in qs[p[k]].options <==> qs[p[k]].correctAnswer in multiset(qs[p[k]].options);
    }
    if forall k :: 0 <= k < |qs| ==> Answerable(r[k]) {
      forall m | 0 <= m < |qs| ensures Answerable(qs[m]) {
        var k := SourcePosition(p, |qs|, m);
      }
    }
    if forall k :: 0 <= k < |qs| ==> UniquelyAnswerable(r[k]) {
      forall m | 0 <= m < |qs| ensures UniquelyAnswerable(qs[m]) {
        var k := SourcePosition(p, |qs|, m);
      }
    }
  }
}
