/** The progress record of saveProgress and loadProgress (script.js:222-246):
    the session fields it carries and how loading falls back on missing ones.
    The record is kept as a value; its JSON text and the storage calls stay outside. */
module Persistence {
  import opened QuizTypes

  /** A parsed progress record. A field is `None` when the stored object lacks it;
      `marked` is kept as a list, as `Array.from` writes it. */
  datatype Progress = Progress(
    currentIndex: Option<int>,
    answers: Option<seq<Answer>>,
    marked: Option<seq<int>>,
    startTime: Option<int>)

  /** `Array.from(new Set(list))`: the list with its repeats dropped. The contract
      gives the members and that none repeats; the body also keeps first
      occurrences in their order. */
  function Dedup(list: seq<int>): (r: seq<int>)
    ensures forall x :: x in r <==> x in list
    ensures Distinct(r)
    ensures |r| <= |list|
    decreases |list|
  {
    if list == [] then []
    else
      var k := |list| - 1;
      var front := Dedup(list[..k]);
      assert forall x :: x in list <==> x in list[..k] || x == list[k];
      if list[k] in front then front else front + [list[k]]
  }

  /** A list without repeats comes back unchanged from the Set constructor. */
  lemma {:induction false} DedupDistinct(list: seq<int>)
    requires Distinct(list)
    ensures Dedup(list) == list
    decreases |list|
  {
    if list != [] {
      var k := |list| - 1;
      DedupDistinct(list[..k]);
      assert list[k] !in list[..k];
      assert list[..k] + [list[k]] == list;
    }
  }

  /** The record saveProgress writes for the given fields. */
  function Snapshot(f: Fields): (p: Progress)
    ensures p.currentIndex == Some(f.currentIndex) && p.answers == Some(f.answers)
    ensures p.marked == Some(f.marked) && p.startTime == Some(f.startTime)
  {
    Progress(Some(f.currentIndex), Some(f.answers), Some(f.marked), Some(f.startTime))
  }

  /** JavaScript's `x || fallback` on a number: 0 and a missing value both fall back. */
  function NumberOr(x: Option<int>, fallback: int): (r: int)
    ensures x.Some? && x.value != 0 ==> r == x.value
    ensures x.None? ==> r == fallback
    ensures x == Some(0) ==> r == fallback
  {
    if x.Some? && x.value != 0 then x.value else fallback
  }

  /** The fields loadProgress sets from a record among `n` questions at time `now`. */
  function Restore(p: Progress, n: nat, now: int): (f: Fields)
    ensures p.currentIndex.Some? ==> f.currentIndex == p.currentIndex.value
    ensures p.currentIndex.None? ==> f.currentIndex == 0
    ensures p.answers.Some? ==> f.answers == p.answers.value
    ensures p.answers.None? ==> f.answers == Unanswered(n)
    ensures p.marked.Some? ==> forall x :: x in f.marked <==> x in p.marked.value
    ensures p.marked.None? ==> f.marked == []
    ensures f.startTime == NumberOr(p.startTime, now)
    ensures Distinct(f.marked)
  {
    Fields(
      NumberOr(p.currentIndex, 0),
      if p.answers.Some? then p.answers.value else Unanswered(n),
      Dedup(if p.marked.Some? then p.marked.value else []),
      NumberOr(p.startTime, now))
  }

  /** A record whose present fields fit a session of `n` questions. */
  predicate WellFormed(p: Progress, n: int)
  {
    && (p.currentIndex.Some? ==> 0 <= p.currentIndex.value < n)
    && (p.answers.Some? ==> |p.answers.value| == n)
    && (p.marked.Some? ==> forall i :: 0 <= i < |p.marked.value| ==> 0 <= p.marked.value[i] < n)
  }

  /** Loading keeps the session invariant exactly when there is a question and
      the record fits: loadProgress itself checks no bounds. */
  lemma RestoreConsistentIff(p: Progress, n: nat, now: int)
    ensures Consistent(Restore(p, n, now), n) <==> n > 0 && WellFormed(p, n)
  {
    var f := Restore(p, n, now);
    if Consistent(f, n) && p.marked.Some? {
      forall i | 0 <= i < |p.marked.value| ensures 0 <= p.marked.value[i] < n {
        assert p.marked.value[i] in f.marked;
      }
    }
  }

  /** Saving a consistent session writes a record that fits it. */
  lemma SnapshotWellFormed(f: Fields, n: nat)
    requires Consistent(f, n)
    ensures WellFormed(Snapshot(f), n)
  {
    forall i | 0 <= i < |f.marked| ensures 0 <= f.marked[i] < n {
      assert f.marked[i] in f.marked;
    }
  }

  /** Loading what was saved, with nothing changed in between, gives back the
      current index, the answers and the flagged set, and the start time unless
      that was 0 (which `||` replaces by the load time). */
  lemma RestoreSnapshot(f: Fields, n: nat, now: int)
    requires Distinct(f.marked)
    ensures Restore(Snapshot(f), n, now) == f.(startTime := if f.startTime == 0 then now else f.startTime)
  {
    DedupDistinct(f.marked);
  }
}
