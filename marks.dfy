/** The flagged questions, a JavaScript Set kept as its members in insertion
    order, and how toggleMark changes it (script.js:121-129). */
module Marks {
  import opened QuizTypes

  /** `Set.delete`: the list without `x`. The contract gives the members that
      remain; the body also keeps their order. */
  function Without(list: seq<int>, x: int): (r: seq<int>)
    ensures forall y :: y in r <==> y in list && y != x
    ensures Distinct(list) ==> Distinct(r)
    ensures x !in list ==> r == list
    ensures |r| <= |list|
  {
    if list == [] then []
    else if list[0] == x then Without(list[1..], x)
    else
      var rest := Without(list[1..], x);
      assert Distinct(list) ==> list[0] !in list[1..];
      [list[0]] + rest
  }

  /** The flagged set after toggleMark on question `x`: `x` alone changes
      membership; an added index goes last, as `Set.add` puts it. */
  function Toggled(marked: seq<int>, x: int): (r: seq<int>)
    ensures x in r <==> x !in marked
    ensures forall y :: y != x ==> (y in r <==> y in marked)
    ensures Distinct(marked) ==> Distinct(r)
    ensures x !in marked ==> r == marked + [x]
  {
    if x in marked then Without(marked, x) else marked + [x]
  }

  /** Toggling the same question twice gives back the same flagged members;
      if it was not flagged before, the very same list. */
  lemma ToggleTwice(marked: seq<int>, x: int)
    ensures forall y :: y in Toggled(Toggled(marked, x), x) <==> y in marked
    ensures x !in marked ==> Toggled(Toggled(marked, x), x) == marked
  {
    if x !in marked {
      assert x in marked + [x];
      WithoutLast(marked, x);
    }
  }

  /** Deleting the element that was just appended restores the list. */
  lemma {:induction false} WithoutLast(list: seq<int>, x: int)
    requires x !in list
    ensures Without(list + [x], x) == list
  {
    if list != [] {
      assert (list + [x])[1..] == list[1..] + [x];
      WithoutLast(list[1..], x);
    }
  }
}
