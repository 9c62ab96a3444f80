/** The status classes of the review-grid items: built once by renderReviewGrid
    (script.js:152-170) and restyled in place by updateReviewGrid (script.js:172-186). */
module ReviewGrid {
  import opened QuizTypes

  /** The classes that carry an item's status; updateReviewGrid removes all three first. */
  const StatusNames: set<string> := {"current", "answered", "marked"}

  /** The class every grid item is created with. */
  const ItemName: string := "review-item"

  /** The status classes item `i` should carry in state `f`. */
  function StatusClasses(i: int, f: Fields): (r: set<string>)
    requires 0 <= i < |f.answers|
    ensures r <= StatusNames
    ensures "current" in r <==> i == f.currentIndex
    ensures "answered" in r <==> f.answers[i].Some?
    ensures "marked" in r <==> i in f.marked
  {
    (if i == f.currentIndex then {"current"} else {})
    + (if f.answers[i].Some? then {"answered"} else {})
    + (if i in f.marked then {"marked"} else {})
  }

  /** The class list of item `i` after one pass of updateReviewGrid. */
  function Restyled(classes: set<string>, i: int, f: Fields): (r: set<string>)
    requires 0 <= i < |f.answers|
    ensures forall c :: c !in StatusNames ==> (c in r <==> c in classes)
    ensures r * StatusNames == StatusClasses(i, f)
  {
    (classes - StatusNames) + StatusClasses(i, f)
  }

  /** The class list renderReviewGrid gives a freshly created item `i`. */
  function BuiltItem(i: int, f: Fields): (r: set<string>)
    requires 0 <= i < |f.answers|
    ensures ItemName in r
    ensures r - {ItemName} == StatusClasses(i, f)
  {
    {ItemName} + StatusClasses(i, f)
  }

  /** Restyling an item built for any earlier state gives exactly the item a
      rebuild for the new state would give: no stale status survives. */
  lemma RestyleMatchesRebuild(i: int, before: Fields, after: Fields)
    requires 0 <= i < |before.answers| && i < |after.answers|
    ensures Restyled(BuiltItem(i, before), i, after) == BuiltItem(i, after)
  {
  }
}
