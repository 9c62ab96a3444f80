/** Values shared by every part of the quiz session: questions, recorded answers
    and the mutable fields of the session state (script.js:1-8). */
module QuizTypes {

  /** JavaScript's `null` / `undefined` next to a present value. */
  datatype Option<T> = None | Some(value: T)

  /** A question record as the question source supplies it. `kind` is the
      record's `type` tag; `answer` is the zero-based index of the correct choice. */
  datatype Question = Question(id: int, text: string, choices: seq<string>, answer: int, kind: string)

  /** One entry of `state.answers`: a choice index, or `null` while unanswered. */
  type Answer = Option<int>

  /** The fields of the session state that operations change and that a
      progress record carries: everything except the questions and the duration.
      `marked` is the JavaScript Set of flagged indices: its members in insertion order. */
  datatype Fields = Fields(currentIndex: int, answers: seq<Answer>, marked: seq<int>, startTime: int)

  /** No value occurs twice: what makes a list the contents of a Set. */
  predicate Distinct(list: seq<int>)
  {
    forall i, j :: 0 <= i < j < |list| ==> list[i] != list[j]
  }

  /** The session invariant for `n` questions: the current index is in bounds,
      there is one answer slot per question, and every marked index is a question. */
  predicate Consistent(f: Fields, n: int)
  {
    && 0 <= f.currentIndex < n
    && |f.answers| == n
    && Distinct(f.marked)
    && (forall m :: m in f.marked ==> 0 <= m < n)
  }

  /** `new Array(n).fill(null)`: n unanswered slots (script.js:36). */
  function Unanswered(n: nat): (r: seq<Answer>)
    ensures |r| == n
    ensures forall i :: 0 <= i < n ==> r[i] == None
  {
    seq(n, _ => None)
  }
}
