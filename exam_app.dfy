/** The exam simulator's session state: the question pool, the questions of
    the running exam, the cursor and the stage, with one method per command
    the page offers. */
module ExamApp {
  import opened Base
  import opened Questions
  import RowImport

  /** The size of an exam when the pool is large enough. */
  const ExamSize: nat := 20

  datatype Stage = Setup | Active | Review | Report

  /** What a random sample of an exam from a pool of `n` questions yields:
      `min(20, n)` distinct positions of the pool. */
  predicate IsSample(picks: seq<nat>, n: nat) {
    && |picks| == Min(ExamSize, n)
    && (forall i | 0 <= i < |picks| :: picks[i] < n)
    && (forall i, j | 0 <= i < |picks| && 0 <= j < |picks| && i != j :: picks[i] != picks[j])
  }

  class Simulator {
    var pool: seq<Question>
    var session: seq<Question>
    var currentIndex: nat
    var stage: Stage

    /** The state every command keeps: at most 20 distinct exam questions,
        a cursor on one of them whenever an exam is under way, and questions
        that are well formed with selections naming their options. */
    ghost predicate Valid()
      reads this, pool, session
    {
      && Distinct(pool) && Distinct(session)
      && |session| <= ExamSize
      && (stage != Setup ==> currentIndex < |session|)
      && (forall q | q in pool :: q.WellFormed() && q.SelectionsInRange())
      && (forall q | q in session :: q.WellFormed() && q.SelectionsInRange())
    }

    /** A fresh page: empty pool and exam, cursor 0, stage SETUP. */
    constructor ()
      ensures Valid()
      ensures pool == [] && session == [] && currentIndex == 0 && stage == Setup
    {
      pool := [];
      session := [];
      currentIndex := 0;
      stage := Setup;
    }

    /** Loading a workbook replaces the pool wholesale with the questions
        built from its kept rows; the exam under way is not touched. */
    method Upload(book: seq<seq<RowImport.Row>>)
      requires Valid()
      modifies this`pool
      ensures Valid()
      ensures |pool| == |RowImport.BookEntries(book)|
      ensures forall i | 0 <= i < |pool| :: fresh(pool[i]) && RowImport.BuiltFrom(pool[i], RowImport.BookEntries(book)[i])
      ensures session == old(session) && currentIndex == old(currentIndex) && stage == old(stage)
    {
      var qs := RowImport.ParseWorkbook(book);
      forall i | 0 <= i < |qs|
        ensures qs[i].WellFormed()
      {
        RowImport.BookEntriesFromRows(book, RowImport.BookEntries(book)[i]);
        var s, r :| 0 <= s < |book| && 1 <= r < |book[s]| && RowImport.ParseRow(book[s][r]) == Some(RowImport.BookEntries(book)[i]);
        RowImport.ParseRowSpec(book[s][r]);
        assert RowImport.BookEntries(book)[i].correct[0] in qs[i].correctIndices;
      }
      pool := qs;
    }

    /** Starting an exam (offered in SETUP with a non-empty pool): the exam is
        the sampled pool questions, each with its selections and flag cleared;
        the cursor goes to the first question and the stage to ACTIVE. Pool
        questions outside the exam keep their state. */
    method Start(picks: seq<nat>)
      requires Valid() && stage == Setup && |pool| > 0
      requires IsSample(picks, |pool|)
      modifies this, pool
      ensures Valid()
      ensures pool == old(pool)
      ensures |session| == Min(ExamSize, |pool|)
      ensures forall i | 0 <= i < |session| :: session[i] == pool[picks[i]]
      ensures forall q | q in session :: q.userSelections == {} && !q.flagged
      ensures forall q | q in pool && q !in session ::
        q.userSelections == old(q.userSelections) && q.flagged == old(q.flagged)
      ensures currentIndex == 0 && stage == Active
    {
      var from := pool;
      var exam := seq(|picks|, i requires 0 <= i < |picks| => from[picks[i]]);
      for k := 0 to |exam|
        invariant pool == from
        invariant forall j | 0 <= j < k :: exam[j].userSelections == {} && !exam[j].flagged
        invariant forall q | q in pool && q !in exam[..k] ::
          q.userSelections == old(q.userSelections) && q.flagged == old(q.flagged)
      {
        exam[k].userSelections := {};
        exam[k].flagged := false;
        assert exam[..k + 1] == exam[..k] + [exam[k]];
      }
      assert exam[..|exam|] == exam;
      session := exam;
      currentIndex := 0;
      stage := Active;
    }

    /** "<< Previous", offered past the first question. */
    method Previous()
      requires Valid() && stage == Active && currentIndex > 0
      modifies this`currentIndex
      ensures Valid()
      ensures currentIndex == old(currentIndex) - 1
    {
      currentIndex := currentIndex - 1;
    }

    /** "Next >>", offered before the last question. */
    method Next()
      requires Valid() && stage == Active && currentIndex < |session| - 1
      modifies this`currentIndex
      ensures Valid()
      ensures currentIndex == old(currentIndex) + 1
    {
      currentIndex := currentIndex + 1;
    }

    /** "Review All Questions", and "Go to Review" on the last question. */
    method OpenReview()
      requires Valid() && stage == Active
      modifies this`stage
      ensures Valid()
      ensures stage == Review
    {
      stage := Review;
    }

    /** The flag button flips the current question's flag and nothing else. */
    method ToggleFlag()
      requires Valid() && stage == Active
      modifies session[currentIndex]
      ensures Valid()
      ensures session[currentIndex].flagged == !old(session[currentIndex].flagged)
      ensures session[currentIndex].userSelections == old(session[currentIndex].userSelections)
      ensures forall i | 0 <= i < |session| && i != currentIndex :: session[i].flagged == old(session[i].flagged)
    {
      var q := session[currentIndex];
      q.flagged := !q.flagged;
    }

    /** A checkbox of a multi-select question: checking option `i` adds it to
        the selections, clearing it discards it; no other index changes. */
    method SetCheckbox(i: nat, checked: bool)
      requires Valid() && stage == Active
      requires session[currentIndex].IsMulti() && i < |session[currentIndex].options|
      modifies session[currentIndex]
      ensures Valid()
      ensures var q := session[currentIndex];
        q.userSelections == if checked then old(q.userSelections) + {i} else old(q.userSelections) - {i}
      ensures session[currentIndex].flagged == old(session[currentIndex].flagged)
    {
      var q := session[currentIndex];
      if checked {
        q.userSelections := q.userSelections + {i};
      } else {
        q.userSelections := q.userSelections - {i};
      }
    }

    /** The radio group of a single-select question: a choice (an option's
        text) replaces the selections with the first position holding that
        text; no choice changes nothing. */
    method ChooseOption(choice: Option<string>)
      requires Valid() && stage == Active
      requires !session[currentIndex].IsMulti()
      requires choice.Some? ==> choice.value in session[currentIndex].options
      modifies session[currentIndex]
      ensures Valid()
      ensures var q := session[currentIndex];
        if choice.Some? && choice.value != "" then
          q.userSelections == {FirstIndex(q.options, choice.value)}
        else q.userSelections == old(q.userSelections)
      ensures session[currentIndex].flagged == old(session[currentIndex].flagged)
    {
      var q := session[currentIndex];
      if choice.Some? && choice.value != "" {
        var selIndex := FirstIndex(q.options, choice.value);
        q.userSelections := {selIndex};
      }
    }

    /** The review grid: one tile per exam question, in order. */
    function Grid(): (tiles: seq<Status>)
      reads this, session
      ensures |tiles| == |session|
      ensures forall i | 0 <= i < |session| :: tiles[i] == ReviewStatus(session[i])
    {
      var exam := session;
      seq(|exam|, i reads exam requires 0 <= i < |exam| => ReviewStatus(exam[i]))
    }

    /** A grid tile jumps back to ACTIVE at that question. */
    method Jump(i: nat)
      requires Valid() && stage == Review && i < |session|
      modifies this`currentIndex, this`stage
      ensures Valid()
      ensures currentIndex == i && stage == Active
    {
      currentIndex := i;
      stage := Active;
    }

    /** "SUBMIT EXAM". */
    method Submit()
      requires Valid() && stage == Review
      modifies this`stage
      ensures Valid()
      ensures stage == Report
    {
      stage := Report;
    }

    /** The report's score and total: the number of exam questions graded
        correct, and the number of exam questions. */
    function Score(): (r: (nat, nat))
      reads this, pool, session
      requires Valid() && stage == Report
      ensures r.1 == |session| && 0 < r.1 <= ExamSize
      ensures r.0 <= r.1
      ensures r.0 == |CorrectPositions(session)|
    {
      CountCorrectIsCorrectPositions(session);
      (CountCorrect(session), |session|)
    }

    /** "End Exam / Reset" (any stage but SETUP) and "Start New Exam" (in
        REPORT): back to SETUP, changing only the stage. */
    method Reset()
      requires Valid() && stage != Setup
      modifies this`stage
      ensures Valid()
      ensures stage == Setup
      ensures pool == old(pool) && session == old(session) && currentIndex == old(currentIndex)
    {
      stage := Setup;
    }
  }

  /** A sample always exists: the first `min(20, n)` positions. */
  lemma SampleExists(n: nat)
    ensures IsSample(seq(Min(ExamSize, n), i => i), n)
  {
  }
}
