/**
 * The study tools tab: flashcard review, practice tests and the note
 * selection a practice test is generated from. Scoring accumulates over
 * the questions in a loop; the handlers change the tab's state.
 */
module StudyToolsTab {
  import opened Wrappers

  datatype Flashcard = Flashcard(id: int, front: string, back: string, category: string, difficulty: string)

  datatype TestQuestion = TestQuestion(
    id: int,
    kind: string,
    question: string,
    options: Option<seq<string>>,
    correctAnswer: string,
    explanation: string,
    points: int,
    difficulty: string,
    topic: string)

  datatype TestInfo = TestInfo(title: string, totalQuestions: int, estimatedTime: string, topics: seq<string>)

  datatype PracticeTest = PracticeTest(testInfo: TestInfo, questions: seq<TestQuestion>)

  datatype View = Menu | Flashcards | PracticeTestView | Connections | Weakness

  /** Answers recorded so far, by question id. */
  type Answers = map<int, string>

  /** The points one question earns: all of them when its recorded answer is exactly the correct one. */
  function Earned(q: TestQuestion, answers: Answers): int {
    if q.id in answers && answers[q.id] == q.correctAnswer then q.points else 0
  }

  /** The practice-test score: the points of every exactly answered question. */
  function TestScore(qs: seq<TestQuestion>, answers: Answers): int {
    if qs == [] then 0 else TestScore(qs[..|qs| - 1], answers) + Earned(qs[|qs| - 1], answers)
  }

  /** Every question's points. */
  function TotalPoints(qs: seq<TestQuestion>): int {
    if qs == [] then 0 else TotalPoints(qs[..|qs| - 1]) + qs[|qs| - 1].points
  }

  /** The score of a concatenation adds the scores of its parts. */
  lemma {:induction false} TestScoreAppend(a: seq<TestQuestion>, b: seq<TestQuestion>, answers: Answers)
    ensures TestScore(a + b, answers) == TestScore(a, answers) + TestScore(b, answers)
  {
    if b == [] {
      assert a + b == a;
    } else {
      assert (a + b)[..|a + b| - 1] == a + b[..|b| - 1];
      TestScoreAppend(a, b[..|b| - 1], answers);
    }
  }

  /** With no answer recorded for any of its questions a test scores nothing. */
  lemma {:induction false} UnansweredScoresZero(qs: seq<TestQuestion>, answers: Answers)
    requires forall i :: 0 <= i < |qs| ==> qs[i].id !in answers
    ensures TestScore(qs, answers) == 0
  {
    if qs != [] {
      UnansweredScoresZero(qs[..|qs| - 1], answers);
    }
  }

  /**
   * With non-negative points the score lies between zero and the total, and
   * it is the total when every question is answered correctly.
   */
  lemma {:induction false} TestScoreBounds(qs: seq<TestQuestion>, answers: Answers)
    requires forall i :: 0 <= i < |qs| ==> qs[i].points >= 0
    ensures 0 <= TestScore(qs, answers) <= TotalPoints(qs)
    ensures (forall i :: 0 <= i < |qs| ==> qs[i].id in answers && answers[qs[i].id] == qs[i].correctAnswer)
      ==> TestScore(qs, answers) == TotalPoints(qs)
  {
    if qs != [] {
      TestScoreBounds(qs[..|qs| - 1], answers);
    }
  }

  /** Recording an answer for an id no question carries leaves the score as it was. */
  lemma {:induction false} ForeignAnswerKeepsScore(qs: seq<TestQuestion>, answers: Answers, id: int, answer: string)
    requires forall i :: 0 <= i < |qs| ==> qs[i].id != id
    ensures TestScore(qs, answers[id := answer]) == TestScore(qs, answers)
  {
    if qs != [] {
      ForeignAnswerKeepsScore(qs[..|qs| - 1], answers, id, answer);
    }
  }

  /** The scoring loop of a practice-test submission. */
  method ScorePracticeTest(qs: seq<TestQuestion>, answers: Answers) returns (score: int)
    ensures score == TestScore(qs, answers)
  {
    score := 0;
    var i := 0;
    while i < |qs|
      invariant 0 <= i <= |qs|
      invariant score == TestScore(qs[..i], answers)
    {
      assert qs[..i + 1][..i] == qs[..i];
      if qs[i].id in answers && answers[qs[i].id] == qs[i].correctAnswer {
        score := score + qs[i].points;
      }
      i := i + 1;
    }
    assert qs[..|qs|] == qs;
  }

  /** The selection without any occurrence of `id`, in its original order. */
  function RemoveAll(selected: seq<int>, id: int): (r: seq<int>)
    ensures id !in r
  {
    if selected == [] then []
    else (if selected[0] == id then [] else [selected[0]]) + RemoveAll(selected[1..], id)
  }

  /** Removing `id` keeps every other id with its multiplicity, and drops exactly the copies of `id`. */
  lemma {:induction false} RemoveAllKeepsOthers(selected: seq<int>, id: int)
    ensures forall x :: x != id ==> multiset(RemoveAll(selected, id))[x] == multiset(selected)[x]
    ensures |RemoveAll(selected, id)| == |selected| - multiset(selected)[id]
  {
    if selected != [] {
      assert selected == [selected[0]] + selected[1..];
      RemoveAllKeepsOthers(selected[1..], id);
    }
  }

  /** Removing from a concatenation removes from each part and keeps their order. */
  lemma {:induction false} RemoveAllAppend(a: seq<int>, b: seq<int>, id: int)
    ensures RemoveAll(a + b, id) == RemoveAll(a, id) + RemoveAll(b, id)
  {
    if a != [] {
      assert (a + b)[1..] == a[1..] + b;
      RemoveAllAppend(a[1..], b, id);
    } else {
      assert a + b == b;
    }
  }

  /** Removing an id the selection does not hold changes nothing. */
  lemma {:induction false} RemoveAllAbsent(selected: seq<int>, id: int)
    requires id !in selected
    ensures RemoveAll(selected, id) == selected
  {
    if selected != [] {
      assert selected == [selected[0]] + selected[1..];
      RemoveAllAbsent(selected[1..], id);
    }
  }

  /** A note's checkbox changing: checking appends its id, unchecking drops every occurrence of it. */
  function ToggleSelection(selected: seq<int>, id: int, checked: bool): (r: seq<int>)
    ensures checked ==> |r| == |selected| + 1 && r[..|selected|] == selected && r[|selected|] == id
    ensures !checked ==> id !in r && forall x :: x != id ==> multiset(r)[x] == multiset(selected)[x]
  {
    if checked then selected + [id]
    else
      RemoveAllKeepsOthers(selected, id);
      RemoveAll(selected, id)
  }

  /** Checking a note that was not selected and unchecking it again restores the selection. */
  lemma CheckThenUncheckRestores(selected: seq<int>, id: int)
    requires id !in selected
    ensures ToggleSelection(ToggleSelection(selected, id, true), id, false) == selected
  {
    RemoveAllAppend(selected, [id], id);
    RemoveAllAbsent(selected, id);
  }

  class StudyTools {
    var activeView: View
    var selectedNoteIds: seq<int>
    var flashcards: seq<Flashcard>
    var currentFlashcard: int
    var showFlashcardBack: bool
    var practiceTest: Option<PracticeTest>
    var currentTestQuestion: int
    var testAnswers: Answers

    /** The flashcard shown is one of the cards, whenever there are cards. */
    predicate FlashcardInRange()
      reads this
    {
      |flashcards| > 0 ==> 0 <= currentFlashcard < |flashcards|
    }

    /** The question shown is one of the test's questions, whenever it has any. */
    predicate QuestionInRange()
      reads this
    {
      practiceTest.Some? && |practiceTest.value.questions| > 0 ==>
        0 <= currentTestQuestion < |practiceTest.value.questions|
    }

    /** The state the tab mounts with. */
    constructor ()
      ensures activeView == Menu && selectedNoteIds == [] && flashcards == []
      ensures currentFlashcard == 0 && !showFlashcardBack
      ensures practiceTest == None && currentTestQuestion == 0 && testAnswers == map[]
      ensures FlashcardInRange() && QuestionInRange()
    {
      activeView, selectedNoteIds, flashcards := Menu, [], [];
      currentFlashcard, showFlashcardBack := 0, false;
      practiceTest, currentTestQuestion, testAnswers := None, 0, map[];
    }

    /** Generated flashcards arrive (none when the response has no list): first card, front side, flashcard view. */
    method OnFlashcardsLoaded(cards: Option<seq<Flashcard>>)
      modifies this
      ensures flashcards == (if cards.Some? then cards.value else [])
      ensures currentFlashcard == 0 && !showFlashcardBack && activeView == Flashcards
      ensures FlashcardInRange()
      ensures selectedNoteIds == old(selectedNoteIds) && practiceTest == old(practiceTest)
      ensures currentTestQuestion == old(currentTestQuestion) && testAnswers == old(testAnswers)
    {
      flashcards := cards.GetOr([]);
      currentFlashcard := 0;
      showFlashcardBack := false;
      activeView := Flashcards;
    }

    /** A generated practice test arrives: first question, no answers, test view. */
    method OnPracticeTestLoaded(test: PracticeTest)
      modifies this
      ensures practiceTest == Some(test) && currentTestQuestion == 0 && testAnswers == map[]
      ensures activeView == PracticeTestView
      ensures QuestionInRange()
      ensures selectedNoteIds == old(selectedNoteIds) && flashcards == old(flashcards)
      ensures currentFlashcard == old(currentFlashcard) && showFlashcardBack == old(showFlashcardBack)
    {
      practiceTest := Some(test);
      currentTestQuestion := 0;
      testAnswers := map[];
      activeView := PracticeTestView;
    }

    /** Next card: the following card's front, or back to the menu after the last card. */
    method HandleFlashcardNext()
      modifies this
      ensures old(currentFlashcard) < |flashcards| - 1 ==>
        currentFlashcard == old(currentFlashcard) + 1 && !showFlashcardBack && activeView == old(activeView)
      ensures old(currentFlashcard) >= |flashcards| - 1 ==>
        currentFlashcard == old(currentFlashcard) && showFlashcardBack == old(showFlashcardBack) && activeView == Menu
      ensures old(FlashcardInRange()) ==> FlashcardInRange()
      ensures flashcards == old(flashcards) && selectedNoteIds == old(selectedNoteIds)
      ensures practiceTest == old(practiceTest) && currentTestQuestion == old(currentTestQuestion)
      ensures testAnswers == old(testAnswers)
    {
      if currentFlashcard < |flashcards| - 1 {
        currentFlashcard := currentFlashcard + 1;
        showFlashcardBack := false;
      } else {
        activeView := Menu;
      }
    }

    /** Records `answer` for the question `questionId`, replacing an earlier answer to it only. */
    method HandleTestAnswer(questionId: int, answer: string)
      modifies this
      ensures questionId in testAnswers && testAnswers[questionId] == answer
      ensures forall k :: k != questionId ==>
        (k in testAnswers <==> k in old(testAnswers)) && (k in testAnswers ==> testAnswers[k] == old(testAnswers)[k])
      ensures activeView == old(activeView) && practiceTest == old(practiceTest)
      ensures currentTestQuestion == old(currentTestQuestion) && flashcards == old(flashcards)
      ensures currentFlashcard == old(currentFlashcard) && showFlashcardBack == old(showFlashcardBack)
      ensures selectedNoteIds == old(selectedNoteIds)
    {
      testAnswers := testAnswers[questionId := answer];
    }

    /**
     * Submitting a test: with no test loaded nothing happens and there is no
     * score; otherwise the score is computed and the view returns to the menu.
     */
    method SubmitPracticeTest() returns (score: Option<int>)
      modifies this
      ensures old(practiceTest).None? ==> score == None && unchanged(this)
      ensures old(practiceTest).Some? ==>
        && score == Some(TestScore(old(practiceTest).value.questions, old(testAnswers)))
        && activeView == Menu
        && practiceTest == old(practiceTest) && testAnswers == old(testAnswers)
        && currentTestQuestion == old(currentTestQuestion) && flashcards == old(flashcards)
        && currentFlashcard == old(currentFlashcard) && showFlashcardBack == old(showFlashcardBack)
        && selectedNoteIds == old(selectedNoteIds)
    {
      if practiceTest.None? {
        return None;
      }
      var s := ScorePracticeTest(practiceTest.value.questions, testAnswers);
      score := Some(s);
      activeView := Menu;
    }

    /** Previous question; the button is disabled on the first question. */
    method PreviousQuestion()
      requires currentTestQuestion != 0
      modifies this
      ensures currentTestQuestion == old(currentTestQuestion) - 1
      ensures old(QuestionInRange()) ==> QuestionInRange()
      ensures activeView == old(activeView) && practiceTest == old(practiceTest)
      ensures testAnswers == old(testAnswers) && flashcards == old(flashcards)
      ensures currentFlashcard == old(currentFlashcard) && showFlashcardBack == old(showFlashcardBack)
      ensures selectedNoteIds == old(selectedNoteIds)
    {
      currentTestQuestion := currentTestQuestion - 1;
    }

    /** Next question; offered only while the current question is not the last. */
    method NextTestQuestion()
      requires practiceTest.Some? && currentTestQuestion != |practiceTest.value.questions| - 1
      modifies this
      ensures currentTestQuestion == old(currentTestQuestion) + 1
      ensures old(QuestionInRange()) ==> QuestionInRange()
      ensures activeView == old(activeView) && practiceTest == old(practiceTest)
      ensures testAnswers == old(testAnswers) && flashcards == old(flashcards)
      ensures currentFlashcard == old(currentFlashcard) && showFlashcardBack == old(showFlashcardBack)
      ensures selectedNoteIds == old(selectedNoteIds)
    {
      currentTestQuestion := currentTestQuestion + 1;
    }

    /** A note's checkbox changes. */
    method OnNoteChecked(id: int, checked: bool)
      modifies this
      ensures selectedNoteIds == ToggleSelection(old(selectedNoteIds), id, checked)
      ensures activeView == old(activeView) && practiceTest == old(practiceTest)
      ensures testAnswers == old(testAnswers) && flashcards == old(flashcards)
      ensures currentFlashcard == old(currentFlashcard) && showFlashcardBack == old(showFlashcardBack)
      ensures currentTestQuestion == old(currentTestQuestion)
    {
      selectedNoteIds := ToggleSelection(selectedNoteIds, id, checked);
    }
  }
}
