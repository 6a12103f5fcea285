/** A multiple-choice question with its per-session response state, how it
    is graded, and how the review grid and the report read it. */
module Questions {

  /** A question. Its prompt, options, correct indices and identity are fixed
      when it is built; the selections and the flag are the response state an
      exam updates in place. */
  class Question {
    const text: string
    const options: seq<string>
    const correctIndices: set<nat>
    const id: string
    var userSelections: set<nat>
    var flagged: bool

    /** Builds a question with no selections and no flag; the correct
        indices are the set of the given list. */
    constructor (text: string, options: seq<string>, correct: seq<nat>, id: string)
      ensures this.text == text && this.options == options && this.id == id
      ensures correctIndices == set i | i in correct
      ensures userSelections == {} && !flagged
    {
      this.text := text;
      this.options := options;
      this.correctIndices := set i | i in correct;
      this.id := id;
      this.userSelections := {};
      this.flagged := false;
    }

    /** Graded correct: the selections are exactly the correct indices. */
    predicate IsCorrect()
      reads this
    {
      userSelections == correctIndices
    }

    /** Answered: at least one option is selected. */
    predicate IsAnswered()
      reads this
    {
      |userSelections| > 0
    }

    /** A multi-select question shows checkboxes, any other a radio group. */
    predicate IsMulti() {
      |correctIndices| > 1
    }

    /** What every imported question satisfies: at least one option, no
        empty option text, at least one correct index. */
    predicate WellFormed() {
      options != [] && (forall k | 0 <= k < |options| :: options[k] != "") && correctIndices != {}
    }

    /** Every selected index names an option. */
    predicate SelectionsInRange()
      reads this
    {
      forall i | i in userSelections :: i < |options|
    }
  }

  /** No question object occurs twice. */
  predicate Distinct(qs: seq<Question>) {
    forall i, j | 0 <= i < |qs| && 0 <= j < |qs| && i != j :: qs[i] != qs[j]
  }

  /** No partial credit: selecting only some of the correct options of a
      multi-select question is graded wrong, and so is selecting extra ones. */
  lemma NoPartialCredit(q: Question)
    ensures q.userSelections < q.correctIndices ==> !q.IsCorrect()
    ensures q.correctIndices < q.userSelections ==> !q.IsCorrect()
  {
  }

  /** A question whose correct indices include one past its options (a bold
      cell after a blank one, see RowImport) can never be graded correct,
      because selections only ever name options. */
  lemma OutOfRangeKeyNeverCorrect(q: Question, c: nat)
    requires q.SelectionsInRange()
    requires c in q.correctIndices && c >= |q.options|
    ensures !q.IsCorrect()
  {
  }

  /** A well-formed question graded correct has been answered. */
  lemma CorrectIsAnswered(q: Question)
    requires q.WellFormed() && q.IsCorrect()
    ensures q.IsAnswered()
  {
    var c :| c in q.correctIndices;
    assert c in q.userSelections;
  }

  /** The report's score: how many of the questions are graded correct. */
  function CountCorrect(qs: seq<Question>): (n: nat)
    reads qs
    ensures n <= |qs|
    ensures n == |qs| <==> forall i | 0 <= i < |qs| :: qs[i].IsCorrect()
    ensures n == 0 <==> forall i | 0 <= i < |qs| :: !qs[i].IsCorrect()
  {
    if qs == [] then 0
    else CountCorrect(qs[..|qs| - 1]) + (if qs[|qs| - 1].IsCorrect() then 1 else 0)
  }

  /** The positions of the questions graded correct. */
  function CorrectPositions(qs: seq<Question>): set<nat>
    reads qs
  {
    set i: nat | i < |qs| && qs[i].IsCorrect()
  }

  /** The score is the number of positions graded correct. */
  lemma {:induction false} CountCorrectIsCorrectPositions(qs: seq<Question>)
    ensures CountCorrect(qs) == |CorrectPositions(qs)|
    decreases |qs|
  {
    if qs != [] {
      var init := qs[..|qs| - 1];
      CountCorrectIsCorrectPositions(init);
      var last := |qs| - 1;
      if qs[last].IsCorrect() {
        assert CorrectPositions(qs) == CorrectPositions(init) + {last};
      } else {
        assert CorrectPositions(qs) == CorrectPositions(init);
      }
    }
  }

  /** A tile of the review grid. */
  datatype Status = Unanswered | Answered | Flagged

  /** The tile a question shows in the review grid: "unanswered" unless it
      is answered, and "flagged" overriding both. */
  function ReviewStatus(q: Question): (s: Status)
    reads q
    ensures s == Flagged <==> q.flagged
    ensures s == Answered <==> !q.flagged && q.IsAnswered()
    ensures s == Unanswered <==> !q.flagged && !q.IsAnswered()
  {
    if q.flagged then Flagged else if q.IsAnswered() then Answered else Unanswered
  }

  /** The first position whose option text equals `choice`: what a radio
      choice is mapped back to (`list.index`). */
  function FirstIndex(options: seq<string>, choice: string): (k: nat)
    requires choice in options
    ensures k < |options| && options[k] == choice
    ensures forall j | 0 <= j < k :: options[j] != choice
  {
    if options[0] == choice then 0 else 1 + FirstIndex(options[1..], choice)
  }
}
