/** Importing a workbook: every sheet's rows after the header become
    questions when they carry a prompt, at least one option and at least one
    bold (correct) option. */
module RowImport {
  import opened Base
  import opened Questions
  import QuestionIds

  /** A spreadsheet cell: its value as text (missing when the cell is
      empty) and whether its font is bold. */
  datatype Cell = Cell(value: Option<string>, bold: bool)

  /** A row: the prompt in column A, then the cells of columns B onward. */
  datatype Row = Row(prompt: Cell, cells: seq<Cell>)

  /** The arguments a kept row passes to the Question constructor. */
  datatype Entry = Entry(text: string, options: seq<string>, correct: seq<nat>, id: string)

  /** A cell whose value is truthy: present and not the empty string. */
  predicate Filled(c: Cell) {
    c.value.Some? && c.value.value != ""
  }

  function Text(c: Cell): string
    requires Filled(c)
  {
    c.value.value
  }

  /** The texts of the filled cells, in column order. */
  function OptionTexts(cells: seq<Cell>): seq<string> {
    if cells == [] then []
    else
      var last := cells[|cells| - 1];
      OptionTexts(cells[..|cells| - 1]) + (if Filled(last) then [Text(last)] else [])
  }

  /** The offsets, among all cells from column B on, of the filled bold
      cells. */
  function BoldOffsets(cells: seq<Cell>): seq<nat> {
    if cells == [] then []
    else
      var last := cells[|cells| - 1];
      BoldOffsets(cells[..|cells| - 1]) + (if Filled(last) && last.bold then [|cells| - 1] else [])
  }

  /** The row rule: a row without a prompt is skipped, and a row is kept only
      when it has an option and a correct index. */
  function ParseRow(row: Row): Option<Entry> {
    if !Filled(row.prompt) then None
    else
      var txt := Text(row.prompt);
      var opts := OptionTexts(row.cells);
      var cor := BoldOffsets(row.cells);
      if opts != [] && cor != [] then Some(Entry(txt, opts, cor, QuestionIds.ExtractId(txt))) else None
  }

  /** The entries of the rows that are kept, in row order. */
  function RowEntries(rows: seq<Row>): seq<Entry> {
    if rows == [] then []
    else
      var e := ParseRow(rows[|rows| - 1]);
      RowEntries(rows[..|rows| - 1]) + (if e.Some? then [e.value] else [])
  }

  /** A sheet's entries: its first row is the header. */
  function SheetEntries(sheet: seq<Row>): seq<Entry> {
    if sheet == [] then [] else RowEntries(sheet[1..])
  }

  /** The entries of all sheets, sheet after sheet. */
  function BookEntries(book: seq<seq<Row>>): seq<Entry> {
    if book == [] then []
    else BookEntries(book[..|book| - 1]) + SheetEntries(book[|book| - 1])
  }

  /** The option and correct-index loop over the cells of columns B onward:
      every filled cell's text is appended as an option, and its offset as a
      correct index when it is bold. */
  method CollectOptions(cells: seq<Cell>) returns (opts: seq<string>, cor: seq<nat>)
    ensures opts == OptionTexts(cells)
    ensures cor == BoldOffsets(cells)
  {
    opts, cor := [], [];
    for i := 0 to |cells|
      invariant opts == OptionTexts(cells[..i])
      invariant cor == BoldOffsets(cells[..i])
    {
      assert cells[..i + 1][..i] == cells[..i];
      var c := cells[i];
      if Filled(c) {
        opts := opts + [Text(c)];
        if c.bold {
          cor := cor + [i];
        }
      }
    }
    assert cells[..|cells|] == cells;
  }

  /** A question built from `e`, with its response state cleared. */
  predicate BuiltFrom(q: Question, e: Entry)
    reads q
  {
    && q.text == e.text && q.options == e.options && q.id == e.id
    && q.correctIndices == (set i | i in e.correct)
    && q.userSelections == {} && !q.flagged
  }

  /** The row loop over one sheet's rows after its header: builds a new
      question for each row that is kept. */
  method ParseRows(rows: seq<Row>) returns (qs: seq<Question>)
    ensures |qs| == |RowEntries(rows)|
    ensures forall i | 0 <= i < |qs| :: fresh(qs[i]) && BuiltFrom(qs[i], RowEntries(rows)[i])
    ensures Distinct(qs)
  {
    qs := [];
    for r := 0 to |rows|
      invariant |qs| == |RowEntries(rows[..r])|
      invariant forall i | 0 <= i < |qs| :: fresh(qs[i]) && BuiltFrom(qs[i], RowEntries(rows[..r])[i])
      invariant Distinct(qs)
    {
      assert rows[..r + 1][..r] == rows[..r];
      var row := rows[r];
      if Filled(row.prompt) {
        var txt := Text(row.prompt);
        var qid := QuestionIds.ExtractId(txt);
        var opts, cor := CollectOptions(row.cells);
        if opts != [] && cor != [] {
          var q := new Question(txt, opts, cor, qid);
          qs := qs + [q];
        }
      }
    }
    assert rows[..|rows|] == rows;
  }

  /** Reads every sheet's rows after the header and builds a new question
      for each row that is kept. */
  method ParseWorkbook(book: seq<seq<Row>>) returns (qs: seq<Question>)
    ensures |qs| == |BookEntries(book)|
    ensures forall i | 0 <= i < |qs| :: fresh(qs[i]) && BuiltFrom(qs[i], BookEntries(book)[i])
    ensures Distinct(qs)
  {
    qs := [];
    ghost var entries: seq<Entry> := [];
    for s := 0 to |book|
      invariant entries == BookEntries(book[..s])
      invariant |qs| == |entries|
      invariant forall i | 0 <= i < |qs| :: fresh(qs[i])
      invariant forall i | 0 <= i < |qs| :: BuiltFrom(qs[i], entries[i])
      invariant Distinct(qs)
    {
      assert book[..s + 1][..s] == book[..s];
      var sheet := book[s];
      if |sheet| > 0 {
        var more := ParseRows(sheet[1..]);
        qs := qs + more;
      }
      entries := entries + SheetEntries(sheet);
    }
    assert book[..|book|] == book;
  }

  /** An offset is a correct index exactly when its cell is filled and
      bold. */
  lemma {:induction false} BoldOffsetsSpec(cells: seq<Cell>, i: nat)
    ensures i in BoldOffsets(cells) <==> i < |cells| && Filled(cells[i]) && cells[i].bold
    decreases |cells|
  {
    if cells != [] {
      var init := cells[..|cells| - 1];
      BoldOffsetsSpec(init, i);
      if i < |init| {
        assert init[i] == cells[i];
      }
    }
  }

  /** The options of a prefix of the cells are a prefix of the options. */
  lemma {:induction false} OptionTextsPrefix(cells: seq<Cell>, j: nat)
    requires j <= |cells|
    ensures OptionTexts(cells[..j]) <= OptionTexts(cells)
    decreases |cells| - j
  {
    if j < |cells| {
      assert cells[..j + 1][..j] == cells[..j];
      OptionTextsPrefix(cells, j + 1);
    } else {
      assert cells[..j] == cells;
    }
  }

  /** The option count of a run of cells is at most its length, with equality
      exactly when every cell is filled. */
  lemma {:induction false} OptionCount(cells: seq<Cell>)
    ensures |OptionTexts(cells)| <= |cells|
    ensures |OptionTexts(cells)| == |cells| <==> forall j | 0 <= j < |cells| :: Filled(cells[j])
    decreases |cells|
  {
    if cells != [] {
      var init := cells[..|cells| - 1];
      OptionCount(init);
      assert forall j | 0 <= j < |init| :: init[j] == cells[j];
    }
  }

  /** The option a filled cell contributes sits at the position given by the
      number of filled cells before it. */
  lemma OptionPosition(cells: seq<Cell>, i: nat)
    requires i < |cells| && Filled(cells[i])
    ensures |OptionTexts(cells[..i])| < |OptionTexts(cells)|
    ensures OptionTexts(cells)[|OptionTexts(cells[..i])|] == Text(cells[i])
  {
    assert cells[..i + 1][..i] == cells[..i];
    assert OptionTexts(cells[..i + 1]) == OptionTexts(cells[..i]) + [Text(cells[i])];
    OptionTextsPrefix(cells, i + 1);
  }

  /** A bold cell's correct index names its own option exactly when no blank
      cell comes before it: the option then sits at the offset, and otherwise
      at a smaller position. */
  lemma CorrectIndexPosition(cells: seq<Cell>, i: nat)
    requires i in BoldOffsets(cells)
    ensures i < |cells| && Filled(cells[i])
    ensures |OptionTexts(cells[..i])| < |OptionTexts(cells)|
    ensures OptionTexts(cells)[|OptionTexts(cells[..i])|] == Text(cells[i])
    ensures |OptionTexts(cells[..i])| <= i
    ensures |OptionTexts(cells[..i])| == i <==> forall j | 0 <= j < i :: Filled(cells[j])
  {
    BoldOffsetsSpec(cells, i);
    OptionPosition(cells, i);
    OptionCount(cells[..i]);
    assert forall j | 0 <= j < i :: cells[..i][j] == cells[j];
  }

  /** Every option is non-empty. */
  lemma {:induction false} OptionTextsFilled(cells: seq<Cell>)
    ensures forall k | 0 <= k < |OptionTexts(cells)| :: OptionTexts(cells)[k] != ""
    decreases |cells|
  {
    if cells != [] {
      OptionTextsFilled(cells[..|cells| - 1]);
    }
  }

  /** A filled cell contributes an option. */
  lemma {:induction false} FilledGivesOption(cells: seq<Cell>, i: nat)
    requires i < |cells| && Filled(cells[i])
    ensures OptionTexts(cells) != []
  {
    OptionPosition(cells, i);
  }

  /** A row is kept exactly when its prompt is filled and some later cell is
      filled and bold (a correct index implies an option, so the option test
      never decides); a kept row's entry carries the prompt, the identity
      from the prompt, and only non-empty options. */
  lemma ParseRowSpec(row: Row)
    ensures ParseRow(row).Some? <==>
      Filled(row.prompt) && exists i | 0 <= i < |row.cells| :: Filled(row.cells[i]) && row.cells[i].bold
    ensures ParseRow(row).Some? ==>
      var e := ParseRow(row).value;
      && e.text == Text(row.prompt)
      && e.id == QuestionIds.ExtractId(e.text)
      && e.options != [] && e.correct != []
      && (forall k | 0 <= k < |e.options| :: e.options[k] != "")
  {
    OptionTextsFilled(row.cells);
    if exists i | 0 <= i < |row.cells| :: Filled(row.cells[i]) && row.cells[i].bold {
      var i :| 0 <= i < |row.cells| && Filled(row.cells[i]) && row.cells[i].bold;
      BoldOffsetsSpec(row.cells, i);
      FilledGivesOption(row.cells, i);
    } else if BoldOffsets(row.cells) != [] {
      var i := BoldOffsets(row.cells)[0];
      BoldOffsetsSpec(row.cells, i);
    }
  }

  /** A header row never yields a question: a sheet's entries are the
      entries of its rows after the first. */
  lemma HeaderSkipped(header: Row, rows: seq<Row>)
    ensures SheetEntries([header] + rows) == RowEntries(rows)
  {
    assert ([header] + rows)[1..] == rows;
  }

  /** Every entry comes from a row after a sheet's header. */
  lemma {:induction false} BookEntriesFromRows(book: seq<seq<Row>>, e: Entry)
    requires e in BookEntries(book)
    ensures exists s, r | 0 <= s < |book| && 1 <= r < |book[s]| :: ParseRow(book[s][r]) == Some(e)
    decreases |book|
  {
    var init := book[..|book| - 1];
    var last := |book| - 1;
    if e in BookEntries(init) {
      BookEntriesFromRows(init, e);
      var s, r :| 0 <= s < |init| && 1 <= r < |init[s]| && ParseRow(init[s][r]) == Some(e);
      assert book[s] == init[s];
    } else {
      var k := RowEntriesFromRow(book[last][1..], e);
      assert book[last][k + 1] == book[last][1..][k];
    }
  }

  /** Every entry of a run of rows comes from one of them. */
  lemma {:induction false} RowEntriesFromRow(rows: seq<Row>, e: Entry) returns (k: nat)
    requires e in RowEntries(rows)
    ensures k < |rows| && ParseRow(rows[k]) == Some(e)
    decreases |rows|
  {
    var init := rows[..|rows| - 1];
    if e in RowEntries(init) {
      k := RowEntriesFromRow(init, e);
    } else {
      k := |rows| - 1;
    }
  }
}
