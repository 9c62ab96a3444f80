/** The tally of submitAnswers (script.js:253-266): one result record per
    question and the number of exact index matches. */
module Scoring {
  import opened QuizTypes

  /** The label a result carries for a question left unanswered. */
  const UnansweredLabel: string := "Tidak dijawab"

  /** One row of the per-question results. `None` in a text field is what
      JavaScript yields (`undefined`) for a choice index outside the choice list. */
  datatype ResultRecord = ResultRecord(question: string, yourAnswer: Option<string>, correctAnswer: Option<string>, isCorrect: bool)

  /** `choices[k]`: the text of choice `k`, or `undefined` when there is none. */
  function ChoiceText(q: Question, k: int): (r: Option<string>)
    ensures r.Some? <==> 0 <= k < |q.choices|
    ensures r.Some? ==> r.value == q.choices[k]
  {
    if 0 <= k < |q.choices| then Some(q.choices[k]) else None
  }

  /** `answers[i] === questions[i].answer`: a null answer never matches. */
  function IsCorrect(q: Question, a: Answer): (b: bool)
    ensures a.None? ==> !b
    ensures b <==> a.Some? && a.value == q.answer
  {
    a == Some(q.answer)
  }

  /** The result record submitAnswers pushes for question `q` answered `a`. */
  function ResultOf(q: Question, a: Answer): (r: ResultRecord)
    ensures r.question == q.text
    ensures r.isCorrect <==> a.Some? && a.value == q.answer
    ensures a.None? ==> r.yourAnswer == Some(UnansweredLabel) && !r.isCorrect
    ensures a.Some? ==> r.yourAnswer == ChoiceText(q, a.value)
    ensures r.correctAnswer == ChoiceText(q, q.answer)
  {
    ResultRecord(
      q.text,
      if a.Some? then ChoiceText(q, a.value) else Some(UnansweredLabel),
      ChoiceText(q, q.answer),
      IsCorrect(q, a))
  }

  /** The score: the number of questions whose answer matches, counted over
      the questions in order as the tally loop does. */
  function Score(questions: seq<Question>, answers: seq<Answer>): (r: nat)
    requires |answers| == |questions|
    ensures r <= |questions|
    decreases |questions|
  {
    if questions == [] then 0
    else
      var k := |questions| - 1;
      Score(questions[..k], answers[..k]) + (if IsCorrect(questions[k], answers[k]) then 1 else 0)
  }

  /** The indices of the correctly answered questions: the reference the score is counted against. */
  function CorrectIndices(questions: seq<Question>, answers: seq<Answer>): (r: set<int>)
    requires |answers| == |questions|
  {
    set i | 0 <= i < |questions| && IsCorrect(questions[i], answers[i])
  }

  /** The score is the number of indices whose answer equals the correct answer. */
  lemma {:induction false} ScoreCountsCorrect(questions: seq<Question>, answers: seq<Answer>)
    requires |answers| == |questions|
    ensures Score(questions, answers) == |CorrectIndices(questions, answers)|
    decreases |questions|
  {
    if questions != [] {
      var k := |questions| - 1;
      var qs, ans := questions[..k], answers[..k];
      ScoreCountsCorrect(qs, ans);
      var prefix := CorrectIndices(qs, ans);
      assert k !in prefix;
      if IsCorrect(questions[k], answers[k]) {
        assert CorrectIndices(questions, answers) == prefix + {k};
      } else {
        assert CorrectIndices(questions, answers) == prefix;
      }
    }
  }

  /** A full score means every question was answered correctly, and conversely. */
  lemma {:induction false} FullScoreIff(questions: seq<Question>, answers: seq<Answer>)
    requires |answers| == |questions|
    ensures Score(questions, answers) == |questions| <==>
            forall i :: 0 <= i < |questions| ==> IsCorrect(questions[i], answers[i])
    decreases |questions|
  {
    if questions != [] {
      var k := |questions| - 1;
      FullScoreIff(questions[..k], answers[..k]);
      if Score(questions, answers) == |questions| {
        assert Score(questions[..k], answers[..k]) == k;
        assert IsCorrect(questions[k], answers[k]);
        forall i | 0 <= i < |questions| ensures IsCorrect(questions[i], answers[i]) {
          if i < k {
            assert questions[..k][i] == questions[i] && answers[..k][i] == answers[i];
          }
        }
      } else {
        var pre := Score(questions[..k], answers[..k]);
        if pre == k {
          assert !IsCorrect(questions[k], answers[k]);
        } else {
          var i :| 0 <= i < k && !IsCorrect(questions[..k][i], answers[..k][i]);
          assert !IsCorrect(questions[i], answers[i]);
        }
      }
    }
  }

  /** A session in which nothing was answered scores zero. */
  lemma {:induction false} NothingAnsweredScoresZero(questions: seq<Question>, answers: seq<Answer>)
    requires |answers| == |questions|
    requires forall i :: 0 <= i < |answers| ==> answers[i] == None
    ensures Score(questions, answers) == 0
    decreases |questions|
  {
    if questions != [] {
      var k := |questions| - 1;
      NothingAnsweredScoresZero(questions[..k], answers[..k]);
    }
  }

  /** The scoring loop of submitAnswers: one pass over the questions that counts
      the matches and records one result per question. */
  method Tally(questions: seq<Question>, answers: seq<Answer>) returns (score: nat, results: seq<ResultRecord>)
    requires |answers| == |questions|
    ensures score == Score(questions, answers)
    ensures score <= |questions|
    ensures |results| == |questions|
    ensures forall i :: 0 <= i < |questions| ==> results[i] == ResultOf(questions[i], answers[i])
  {
    score := 0;
    results := [];
    for i := 0 to |questions|
      invariant score == Score(questions[..i], answers[..i])
      invariant |results| == i
      invariant forall j :: 0 <= j < i ==> results[j] == ResultOf(questions[j], answers[j])
    {
      assert questions[..i + 1][..i] == questions[..i];
      assert answers[..i + 1][..i] == answers[..i];
      var isCorrect := answers[i] == Some(questions[i].answer);
      if isCorrect {
        score := score + 1;
      }
      results := results + [ResultRecord(
        questions[i].text,
        if answers[i].Some? then ChoiceText(questions[i], answers[i].value) else Some(UnansweredLabel),
        ChoiceText(questions[i], questions[i].answer),
        isCorrect)];
    }
    assert questions[..|questions|] == questions;
    assert answers[..|answers|] == answers;
  }

  /** Four questions with correct answers 0, 1, 2, 3 answered 0, null, 2, 1:
      the score is 2 and the second question is reported unanswered and wrong. */
  lemma ScoreExample()
    ensures var questions := seq(4, i => Question(i + 1, "", ["A", "B", "C", "D"], i, "single"));
            && Score(questions, [Some(0), None, Some(2), Some(1)]) == 2
            && ResultOf(questions[1], None).yourAnswer == Some(UnansweredLabel)
            && !ResultOf(questions[1], None).isCorrect
  {
    var questions := seq(4, i => Question(i + 1, "", ["A", "B", "C", "D"], i, "single"));
    var answers: seq<Answer> := [Some(0), None, Some(2), Some(1)];
    assert Score(questions[..0], answers[..0]) == 0;
    assert questions[..1][..0] == questions[..0] && answers[..1][..0] == answers[..0];
    assert Score(questions[..1], answers[..1]) == 1;
    assert questions[..2][..1] == questions[..1] && answers[..2][..1] == answers[..1];
    assert Score(questions[..2], answers[..2]) == 1;
    assert questions[..3][..2] == questions[..2] && answers[..3][..2] == answers[..2];
    assert Score(questions[..3], answers[..3]) == 2;
    assert questions[..4][..3] == questions[..3] && answers[..4][..3] == answers[..3];
    assert questions[..4] == questions && answers[..4] == answers;
  }
}
