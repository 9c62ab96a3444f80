/** The session state of the quiz page (script.js:1-8) and the operations that
    change it in place: answering, flagging, navigating, the keyboard shortcuts,
    saving and loading progress, the review-grid restyle, a timer tick and
    submission. Rendering and the browser calls around them stay outside. */
module QuizSession {
  import opened QuizTypes
  import Navigation
  import Marks
  import opened Keyboard
  import opened Scoring
  import opened Timer
  import opened Persistence
  import opened ReviewGrid

  /** The one storage slot the page uses (the key 'snbtProgress'), holding a
      parsed progress record or nothing. */
  class Storage {
    var slot: Option<Progress>

    constructor (initial: Option<Progress>)
      ensures slot == initial
    {
      slot := initial;
    }
  }

  class Session {
    const questions: seq<Question>
    /** The allowed time in seconds. */
    const duration: int
    const store: Storage
    var currentIndex: int
    var answers: seq<Answer>
    /** The flagged question indices, in the order they were flagged. */
    var marked: seq<int>
    /** Milliseconds since the epoch at which the attempt started. */
    var startTime: int

    /** The fields that operations change, as one value. */
    function State(): (f: Fields)
      reads this
    {
      Fields(currentIndex, answers, marked, startTime)
    }

    /** The session invariant: index in bounds, one answer per question, and
        flagged indices distinct and in bounds. */
    predicate Valid()
      reads this
    {
      Consistent(State(), |questions|)
    }

    /** The state once loadQuestions has the questions: first question, nothing
        answered (script.js:36), nothing flagged, started at `now`. */
    constructor (questions: seq<Question>, store: Storage, now: int)
      ensures this.questions == questions && this.store == store
      ensures duration == DefaultDuration
      ensures State() == Fields(0, Unanswered(|questions|), [], now)
      ensures Valid() <==> |questions| > 0
    {
      this.questions := questions;
      this.store := store;
      duration := DefaultDuration;
      currentIndex := 0;
      answers := Unanswered(|questions|);
      marked := [];
      startTime := now;
    }

    /** saveProgress: write the current fields to the storage slot. */
    method SaveProgress()
      modifies store
      ensures store.slot == Some(Snapshot(State()))
    {
      store.slot := Some(Progress(Some(currentIndex), Some(answers), Some(marked), Some(startTime)));
    }

    /** selectAnswer: record `index` for the current question, then save.
        The index is not checked against the question's choices. */
    method SelectAnswer(index: int)
      requires Valid()
      modifies this, store
      ensures Valid()
      ensures State() == old(State()).(answers := old(answers)[old(currentIndex) := Some(index)])
      ensures store.slot == Some(Snapshot(State()))
    {
      answers := answers[currentIndex := Some(index)];
      SaveProgress();
    }

    /** toggleMark: flag or unflag the current question, then save. */
    method ToggleMark()
      requires Valid()
      modifies this, store
      ensures Valid()
      ensures State() == old(State()).(marked := Marks.Toggled(old(marked), old(currentIndex)))
      ensures store.slot == Some(Snapshot(State()))
    {
      if currentIndex in marked {
        marked := Marks.Without(marked, currentIndex);
      } else {
        marked := marked + [currentIndex];
      }
      SaveProgress();
    }

    /** goToPrevQuestion: one question back unless at the first; nothing is saved. */
    method GoToPrevQuestion()
      requires Valid()
      modifies this
      ensures Valid()
      ensures State() == old(State()).(currentIndex := Navigation.PrevIndex(old(currentIndex)))
    {
      if currentIndex > 0 {
        currentIndex := currentIndex - 1;
      }
    }

    /** goToNextQuestion: one question on unless at the last; nothing is saved. */
    method GoToNextQuestion()
      requires Valid()
      modifies this
      ensures Valid()
      ensures State() == old(State()).(currentIndex := Navigation.NextIndex(old(currentIndex), |questions|))
    {
      if currentIndex < |questions| - 1 {
        currentIndex := currentIndex + 1;
      }
    }

    /** goToQuestion: jump to `index` if it names a question, else do nothing. */
    method GoToQuestion(index: int)
      requires Valid()
      modifies this
      ensures Valid()
      ensures State() == old(State()).(currentIndex := Navigation.JumpIndex(old(currentIndex), index, |questions|))
      ensures !(0 <= index < |questions|) ==> State() == old(State())
    {
      if index >= 0 && index < |questions| {
        currentIndex := index;
      }
    }

    /** What a key press asks for, given the current question's choices. */
    function KeyCommand(key: Key): (cmd: Command)
      reads this
      requires Valid()
    {
      Dispatch(key, |questions[currentIndex].choices|)
    }

    /** handleKeydown: carry out the command the key stands for. */
    method HandleKeydown(key: Key)
      requires Valid()
      modifies this, store
      ensures Valid()
      ensures old(KeyCommand(key)).Prev? ==>
        State() == old(State()).(currentIndex := Navigation.PrevIndex(old(currentIndex))) && store.slot == old(store.slot)
      ensures old(KeyCommand(key)).Next? ==>
        State() == old(State()).(currentIndex := Navigation.NextIndex(old(currentIndex), |questions|)) && store.slot == old(store.slot)
      ensures old(KeyCommand(key)).Select? ==>
        State() == old(State()).(answers := old(answers)[old(currentIndex) := Some(old(KeyCommand(key)).choice)])
        && store.slot == Some(Snapshot(State()))
      ensures old(KeyCommand(key)).ToggleMark? ==>
        State() == old(State()).(marked := Marks.Toggled(old(marked), old(currentIndex)))
        && store.slot == Some(Snapshot(State()))
      ensures old(KeyCommand(key)).Ignore? ==> State() == old(State()) && store.slot == old(store.slot)
    {
      var cmd := Dispatch(key, |questions[currentIndex].choices|);
      match cmd
      case Prev => GoToPrevQuestion();
      case Next => GoToNextQuestion();
      case Select(k) => SelectAnswer(k);
      case ToggleMark => ToggleMark();
      case Ignore =>
    }

    /** loadProgress: if the slot holds a record, take the fields from it with
        the `||` fallbacks. No bounds are checked, so the invariant holds
        afterwards exactly when the record fits the questions. */
    method LoadProgress(now: int)
      modifies this
      ensures store.slot.None? ==> State() == old(State())
      ensures store.slot.Some? ==> State() == Restore(store.slot.value, |questions|, now)
      ensures store.slot.Some? ==> (Valid() <==> |questions| > 0 && WellFormed(store.slot.value, |questions|))
    {
      if store.slot.Some? {
        var p := store.slot.value;
        currentIndex := if p.currentIndex.Some? && p.currentIndex.value != 0 then p.currentIndex.value else 0;
        answers := if p.answers.Some? then p.answers.value else Unanswered(|questions|);
        marked := Dedup(if p.marked.Some? then p.marked.value else []);
        startTime := if p.startTime.Some? && p.startTime.value != 0 then p.startTime.value else now;
        RestoreConsistentIff(p, |questions|, now);
      }
    }

    /** renderReviewGrid's classes: one item per question, built for the current state. */
    method RenderReviewGrid() returns (items: array<set<string>>)
      requires Valid()
      ensures fresh(items) && items.Length == |questions|
      ensures forall i :: 0 <= i < items.Length ==> items[i] == BuiltItem(i, State())
    {
      items := new set<string>[|questions|];
      for i := 0 to |questions|
        invariant forall j :: 0 <= j < i ==> items[j] == BuiltItem(j, State())
      {
        var classes := {ItemName};
        if i == currentIndex {
          classes := classes + {"current"};
        }
        if answers[i] != None {
          classes := classes + {"answered"};
        }
        if i in marked {
          classes := classes + {"marked"};
        }
        items[i] := classes;
      }
    }

    /** updateReviewGrid: clear the three status classes of every item and set
        them again from the state; other classes stay. The grid has either no
        items yet or one per question. */
    method UpdateReviewGrid(items: array<set<string>>)
      requires Valid() && items.Length <= |questions|
      modifies items
      ensures forall i :: 0 <= i < items.Length ==> items[i] == Restyled(old(items[i]), i, State())
    {
      for i := 0 to items.Length
        invariant forall j :: 0 <= j < i ==> items[j] == Restyled(old(items[j]), j, State())
        invariant forall j :: i <= j < items.Length ==> items[j] == old(items[j])
      {
        var classes := items[i] - StatusNames;
        if i == currentIndex {
          classes := classes + {"current"};
        }
        if answers[i] != None {
          classes := classes + {"answered"};
        }
        if i in marked {
          classes := classes + {"marked"};
        }
        items[i] := classes;
      }
    }

    /** One tick of the timer at clock time `now`: the remaining seconds, their
        HH:MM:SS display, and whether time is up (which makes the page submit). */
    method TimerTick(now: int) returns (remaining: nat, display: string, expired: bool)
      ensures expired <==> remaining == 0
      ensures expired <==> now - startTime >= duration * 1000
      ensures remaining > 0 ==> (duration - remaining) * 1000 <= now - startTime < (duration - remaining + 1) * 1000
      ensures display == Display(remaining)
      ensures ReadsAs(display, remaining)
    {
      var elapsedSeconds := (now - startTime) / 1000;
      remaining := if duration - elapsedSeconds > 0 then duration - elapsedSeconds else 0;
      assert remaining == Remaining(duration, now - startTime);
      display := Display(remaining);
      expired := remaining == 0;
    }

    /** submitAnswers: when the user confirms, score the answers, produce one
        result per question and clear the storage slot; otherwise do nothing. */
    method SubmitAnswers(confirmed: bool) returns (submitted: bool, score: nat, results: seq<ResultRecord>)
      requires Valid()
      modifies store
      ensures submitted == confirmed
      ensures !confirmed ==> score == 0 && results == [] && store.slot == old(store.slot)
      ensures confirmed ==> score == |CorrectIndices(questions, answers)| && store.slot == None
      ensures confirmed ==> |results| == |questions|
      ensures confirmed ==> forall i :: 0 <= i < |questions| ==> results[i] == ResultOf(questions[i], answers[i])
    {
      if !confirmed {
        return false, 0, [];
      }
      score, results := Tally(questions, answers);
      ScoreCountsCorrect(questions, answers);
      store.slot := None;
      submitted := true;
    }
  }

  /** A page reload in the middle of an attempt: progress is saved, a new session
      starts over the same questions and storage, and loads it back. The new
      session has the same index, answers, flags and start time. */
  method Reload(s: Session, now: int) returns (t: Session)
    requires s.Valid() && s.startTime != 0
    modifies s.store
    ensures fresh(t) && t.Valid()
    ensures t.questions == s.questions && t.store == s.store
    ensures t.State() == s.State()
  {
    s.SaveProgress();
    SnapshotWellFormed(s.State(), |s.questions|);
    RestoreSnapshot(s.State(), |s.questions|, now);
    t := new Session(s.questions, s.store, now);
    t.LoadProgress(now);
  }
}
