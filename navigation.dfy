/** Moving the current question index: goToPrevQuestion, goToNextQuestion and
    goToQuestion (script.js:131-150). */
module Navigation {

  /** Index after goToPrevQuestion: one step back unless already at the first question. */
  function PrevIndex(current: int): (r: int)
    ensures current > 0 ==> r == current - 1
    ensures current <= 0 ==> r == current
    ensures current >= 0 ==> r >= 0
    ensures r <= current
  {
    if current > 0 then current - 1 else current
  }

  /** Index after goToNextQuestion among `n` questions: one step on unless at the last one. */
  function NextIndex(current: int, n: int): (r: int)
    ensures current < n - 1 ==> r == current + 1
    ensures current >= n - 1 ==> r == current
    ensures 0 <= current < n ==> 0 <= r < n
  {
    if current < n - 1 then current + 1 else current
  }

  /** Index after goToQuestion(target): the target when it names a question,
      otherwise the request is ignored. */
  function JumpIndex(current: int, target: int, n: int): (r: int)
    ensures 0 <= target < n ==> r == target
    ensures !(0 <= target < n) ==> r == current
    ensures 0 <= current < n ==> 0 <= r < n
  {
    if 0 <= target && target < n then target else current
  }

  /** Next followed by Prev returns to the start whenever Next moved. */
  lemma PrevUndoesNext(current: int, n: int)
    requires 0 <= current < n - 1
    ensures PrevIndex(NextIndex(current, n)) == current
  {
  }

  /** Prev followed by Next returns to the start whenever Prev moved. */
  lemma NextUndoesPrev(current: int, n: int)
    requires 0 < current < n
    ensures NextIndex(PrevIndex(current), n) == current
  {
  }

  /** A navigation request a user can make: the two buttons (or arrow keys)
      and a click on a review-grid item. */
  datatype Move = Prev | Next | Jump(target: int)

  function Step(current: int, m: Move, n: int): (r: int)
  {
    match m
    case Prev => PrevIndex(current)
    case Next => NextIndex(current, n)
    case Jump(t) => JumpIndex(current, t, n)
  }

  /** The index after a whole sequence of navigation requests, applied in order. */
  function Navigate(current: int, moves: seq<Move>, n: int): (r: int)
    decreases |moves|
  {
    if moves == [] then current else Navigate(Step(current, moves[0], n), moves[1..], n)
  }

  /** No sequence of navigation requests takes the index out of [0, n-1]. */
  lemma {:induction false} NavigateStaysInBounds(current: int, moves: seq<Move>, n: int)
    requires 0 <= current < n
    ensures 0 <= Navigate(current, moves, n) < n
    decreases |moves|
  {
    if moves != [] {
      var next := Step(current, moves[0], n);
      assert 0 <= next < n;
      NavigateStaysInBounds(next, moves[1..], n);
    }
  }
}
