/** The printable set's lettering: options are labelled A to Z ('?' past Z)
    and a question's answer key is the letters of its sorted correct
    indices joined by ", ". */
module AnswerKeys {
  import opened Base
  import opened Questions
  import RowImport

  const Alphabet: string := "ABCDEFGHIJKLMNOPQRSTUVWXYZ"

  /** The letter of option `i`. */
  function Letter(i: nat): char
    requires i < |Alphabet|
  {
    Alphabet[i]
  }

  /** The label printed before option `idx`; positions past Z get '?'. */
  function OptionLabel(idx: nat): string {
    if idx < |Alphabet| then [Letter(idx)] else "?"
  }

  /** The elements of `s` below `n`, in ascending order. */
  function AscendingBelow(s: set<nat>, n: nat): (r: seq<nat>)
    ensures forall i | 0 <= i < |r| :: r[i] < n
  {
    if n == 0 then []
    else AscendingBelow(s, n - 1) + (if n - 1 in s then [n - 1] else [])
  }

  /** `AscendingBelow(s, n)` is `sorted` of the elements of `s` below `n`:
      strictly increasing, and holding exactly those elements. */
  lemma {:induction false} AscendingBelowSpec(s: set<nat>, n: nat)
    ensures var r := AscendingBelow(s, n);
      && (forall i, j | 0 <= i < j < |r| :: r[i] < r[j])
      && (forall x :: x in r <==> x in s && x < n)
  {
    if n > 0 {
      AscendingBelowSpec(s, n - 1);
    }
  }

  function Letters(xs: seq<nat>): (ls: seq<char>)
    requires forall i | 0 <= i < |xs| :: xs[i] < |Alphabet|
  {
    if xs == [] then [] else [Letter(xs[0])] + Letters(xs[1..])
  }

  /** `", ".join` over single letters. */
  function Join(ls: seq<char>): string {
    if |ls| <= 1 then ls else [ls[0]] + ", " + Join(ls[1..])
  }

  /** The answer key of a question with the given correct indices: the
      letters of the sorted indices joined by ", ". The letter lookup has no
      fallback, so an index past Z makes the export fail (None). */
  function AnswerKey(correct: set<nat>): Option<string> {
    if exists x | x in correct :: x >= |Alphabet| then None
    else Some(Join(Letters(AscendingBelow(correct, |Alphabet|))))
  }

  /** The answer-key column of the printable set, in question order; one
      failing question fails the whole export. */
  function AnswerKeyColumn(qs: seq<Question>): (col: Option<seq<string>>)
    ensures col.Some? <==> forall i | 0 <= i < |qs| :: AnswerKey(qs[i].correctIndices).Some?
    ensures col.Some? ==> |col.value| == |qs|
    ensures col.Some? ==> forall i | 0 <= i < |qs| :: col.value[i] == AnswerKey(qs[i].correctIndices).value
  {
    if qs == [] then Some([])
    else
      var k := AnswerKey(qs[0].correctIndices);
      var rest := AnswerKeyColumn(qs[1..]);
      if k.None? || rest.None? then None else Some([k.value] + rest.value)
  }

  /** Reads a key back: the index of each letter, skipping the ", "
      separators. */
  function ParseKey(key: string): seq<int> {
    if key == [] then []
    else [key[0] as int - 'A' as int] + (if |key| >= 3 then ParseKey(key[3..]) else [])
  }

  lemma {:induction false} LetterIndex(i: nat)
    requires i < |Alphabet|
    ensures Letter(i) as int - 'A' as int == i
  {
    assert forall k | 0 <= k < 26 :: Alphabet[k] as int == 'A' as int + k;
  }

  lemma {:induction false} ParseJoinedLetters(xs: seq<nat>)
    requires forall i | 0 <= i < |xs| :: xs[i] < |Alphabet|
    ensures ParseKey(Join(Letters(xs))) == xs
    decreases |xs|
  {
    if xs != [] {
      LetterIndex(xs[0]);
      var ls := Letters(xs);
      assert ls[1..] == Letters(xs[1..]);
      if |xs| >= 2 {
        ParseJoinedLetters(xs[1..]);
        assert Join(ls)[3..] == Join(ls[1..]);
      }
    }
  }

  /** The key fails exactly when some correct index is past Z; otherwise it
      lists every correct index once, in ascending order, and reads back to
      them. */
  lemma AnswerKeyRoundTrip(correct: set<nat>)
    ensures AnswerKey(correct).None? <==> exists x | x in correct :: x >= |Alphabet|
    ensures AnswerKey(correct).Some? ==>
      var xs := ParseKey(AnswerKey(correct).value);
      && (forall i, j | 0 <= i < j < |xs| :: xs[i] < xs[j])
      && (forall x :: x in xs <==> x in correct)
  {
    if AnswerKey(correct).Some? {
      AscendingBelowSpec(correct, |Alphabet|);
      ParseJoinedLetters(AscendingBelow(correct, |Alphabet|));
    }
  }

  /** The key letter for index x is the label the printed set puts at
      position x. Whether an option is printed there is a separate matter: a
      correct index at or past the options (a bold cell after a blank one)
      gets a letter no printed option carries; see BoldCellKeyLetter. */
  lemma {:induction false} KeyUsesOptionLabels(xs: seq<nat>)
    requires forall i | 0 <= i < |xs| :: xs[i] < |Alphabet|
    ensures |Letters(xs)| == |xs|
    ensures forall i | 0 <= i < |xs| :: [Letters(xs)[i]] == OptionLabel(xs[i])
    decreases |xs|
  {
    if xs != [] {
      KeyUsesOptionLabels(xs[1..]);
    }
  }

  /** For a bold cell at offset i below 26, its option is printed at the
      position given by the filled cells before it, and the key letter for i
      is that option's printed label exactly when no blank cell precedes the
      bold cell. */
  lemma BoldCellKeyLetter(cells: seq<RowImport.Cell>, i: nat)
    requires i in RowImport.BoldOffsets(cells) && i < |Alphabet|
    ensures i < |cells| && RowImport.Filled(cells[i])
    ensures var pos := |RowImport.OptionTexts(cells[..i])|;
      && pos < |RowImport.OptionTexts(cells)|
      && RowImport.OptionTexts(cells)[pos] == RowImport.Text(cells[i])
      && (OptionLabel(pos) == [Letter(i)] <==> forall j | 0 <= j < i :: RowImport.Filled(cells[j]))
  {
    RowImport.CorrectIndexPosition(cells, i);
    var pos := |RowImport.OptionTexts(cells[..i])|;
    LetterIndex(pos);
    LetterIndex(i);
  }

  /** Example: cells [blank, bold "X"] print only "A. X", yet the key is
      "B". */
  lemma BlankBeforeBoldExample()
    ensures var cells := [RowImport.Cell(None, false), RowImport.Cell(Some("X"), true)];
      && RowImport.OptionTexts(cells) == ["X"]
      && RowImport.BoldOffsets(cells) == [1]
      && AnswerKey({1}) == Some("B")
  {
    var cells := [RowImport.Cell(None, false), RowImport.Cell(Some("X"), true)];
    assert cells[..1] == [RowImport.Cell(None, false)];
    var s: set<nat> := {1};
    assert AscendingBelow(s, |Alphabet|) == [1] by {
      assert AscendingBelow(s, 1) == [];
      assert AscendingBelow(s, 2) == [1];
      AscendingBelowBound(s, 2, |Alphabet|);
    }
    assert !exists x | x in s :: x >= |Alphabet|;
    assert Join(Letters([1])) == "B";
  }

  /** Labels tell options apart only up to Z: past it every option is '?'. */
  lemma OptionLabelsDistinct(i: nat, j: nat)
    ensures i < |Alphabet| && j < |Alphabet| ==> (OptionLabel(i) == OptionLabel(j) <==> i == j)
    ensures i >= |Alphabet| && j >= |Alphabet| ==> OptionLabel(i) == OptionLabel(j)
  {
    if i < |Alphabet| && j < |Alphabet| && OptionLabel(i) == OptionLabel(j) {
      LetterIndex(i);
      LetterIndex(j);
    }
  }

  /** Example: correct indices {2, 0} give the key "A, C". */
  lemma KeyExample()
    ensures AnswerKey({2, 0}) == Some("A, C")
  {
    var s: set<nat> := {2, 0};
    assert AscendingBelow(s, |Alphabet|) == [0, 2] by {
      assert AscendingBelow(s, 1) == [0];
      assert AscendingBelow(s, 3) == [0, 2];
      AscendingBelowBound(s, 3, |Alphabet|);
    }
    assert !exists x | x in s :: x >= |Alphabet|;
    assert Join(Letters([0, 2])) == "A, C" by {
      assert Letters([0, 2]) == ['A', 'C'];
    }
  }

  /** Raising the bound past every element changes nothing. */
  lemma {:induction false} AscendingBelowBound(s: set<nat>, m: nat, n: nat)
    requires m <= n
    requires forall x | x in s :: x < m
    ensures AscendingBelow(s, n) == AscendingBelow(s, m)
    decreases n - m
  {
    if m < n {
      AscendingBelowBound(s, m, n - 1);
    }
  }
}
