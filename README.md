# PE exam simulator — Dafny model

This project models the core of `PE_Exam_CBT.py`, a practice-exam page for
the PE licensing exam. The page loads a bank of multiple-choice questions
from a workbook, runs a 20-question computer-based test, and exports a
printable set with an answer key. The model covers:

- **Questions** (`questions.dfy`, module `Questions`). A question is a class:
  the prompt, options, correct indices and identity are fixed, and the
  selections and the flag are response state that the exam changes in place.
  The module also holds grading (exact set match), the report's score and
  the review grid's tile priority.
- **Identities** (`question_ids.dfy`, module `QuestionIds`). A scanner finds
  the token in a trailing `(token)`. It is proved to agree, in both
  directions, with the shape the pattern `\(([\w-]+)\)\s*$` accepts.
  Otherwise the identity is the literal `"ID"`.
- **Import** (`row_import.dfy`, module `RowImport`). This is the row rule as
  pure functions. The option/correct-index loop and the sheet and row loops
  are methods proved against those functions. Properties proved: when a row
  is kept, and where a bold cell's option really sits relative to its
  recorded correct index.
- **Answer key** (`answer_keys.dfy`, module `AnswerKeys`). Option letters,
  and the key string built from the sorted correct indices. The key is
  proved to read back to exactly those indices. An index past Z makes the
  export fail.
- **Exam session** (`exam_app.dfy`, module `ExamApp`). A `Simulator` class
  holds `pool`, `session`, `currentIndex` and `stage` (SETUP, ACTIVE, REVIEW,
  REPORT). Each button is a method, and its guard is the method's
  precondition. Every method keeps `Valid()`:
  - at most 20 distinct exam questions;
  - the cursor is in range whenever an exam is under way;
  - every selection names an option.

`Base` (`base.dfy`) holds an `Option` type, `min`, and Python's whitespace
set.

Things the code does not do:

- A prompt without a token gets the identity `"ID"`. Identities are
  therefore not unique (`QuestionIds.IdsNotUnique`). Nothing synthesizes a
  unique identity.
- Nothing limits a question to 2 to 26 options: it may have one option, or
  more than 26.
- Uploading replaces the pool wholesale. The pool is not append-only. The
  upload branch runs again on every page run while a file sits in the
  uploader, so in practice the pool is rebuilt with new question objects
  after each click, Start's own rerun included. From then on the exam's
  questions are no longer members of the pool. The model allows `Upload`
  between any two commands, so its proofs cover these runs too.
- Nothing marks questions as used, and no progress is kept across exams.

## Model

| member | source | states |
|---|---|---|
| `QuestionIds.FindId` | PE_Exam_CBT.py:42 | the scanner for the search: strip trailing whitespace, expect `)`, take the trailing run of `[A-Za-z0-9_-]` characters, expect `(` before it; the token when all of that holds, otherwise none |
| `QuestionIds.ExtractId` | PE_Exam_CBT.py:42-43 | the token found by `FindId`, or the literal `"ID"` when there is none |
| `QuestionIds.TrimEnd` | PE_Exam_CBT.py:42 | the `\s*$` part: the result is a prefix, everything removed is whitespace, and the result does not end in whitespace |
| `QuestionIds.RunStart` | PE_Exam_CBT.py:42 | the `[\w-]+` part: the suffix from the returned position is all token characters, and the character before it is not one |
| `QuestionIds.FindIdSound` | PE_Exam_CBT.py:42-43 | any token the scanner finds makes the prompt `pre + "(" + tok + ")" + ws`, with a non-empty `[\w-]` token and whitespace `ws` |
| `QuestionIds.FindIdComplete` | PE_Exam_CBT.py:42-43 | whenever the prompt has that shape, the scanner finds exactly that token |
| `QuestionIds.ExtractIdSpec` | PE_Exam_CBT.py:42-43 | the identity is the trailing token when there is one, and `"ID"` when the prompt has no such shape |
| `QuestionIds.IdsNotUnique` | PE_Exam_CBT.py:43 | two different prompts without a token both get `"ID"`, and so does a prompt whose token is `ID`; identities are not unique |
| `Questions.Question.constructor` | PE_Exam_CBT.py:15-21 | the fixed fields are the arguments, the correct indices are the set of the given list, and there is no selection and no flag |
| `Questions.Question.IsCorrect` | PE_Exam_CBT.py:23-24 | exact set equality of the selections and the correct indices |
| `Questions.Question.IsAnswered` | PE_Exam_CBT.py:26-27 | the selection set is non-empty |
| `Questions.Question.IsMulti` | PE_Exam_CBT.py:196 | more than one correct index: the question shows checkboxes, otherwise a radio group |
| `Questions.NoPartialCredit` | PE_Exam_CBT.py:23-24 | a strict subset or a strict superset of the correct indices is graded wrong (exact match, no partial credit) |
| `Questions.OutOfRangeKeyNeverCorrect` | PE_Exam_CBT.py:23-24 | a question with a correct index past its options is never graded correct while its selections name options |
| `Questions.CorrectIsAnswered` | PE_Exam_CBT.py:23-27 | a well-formed question that is graded correct is answered |
| `Questions.CountCorrect` | PE_Exam_CBT.py:276-277 | the score is between 0 and the total; it equals the total exactly when every question is correct, and is 0 exactly when none is |
| `Questions.CountCorrectIsCorrectPositions` | PE_Exam_CBT.py:276 | the score is the number of exam positions graded correct |
| `Questions.ReviewStatus` | PE_Exam_CBT.py:255-257 | a tile shows flagged exactly when the question is flagged, answered exactly when it is answered and not flagged, and unanswered otherwise |
| `Questions.FirstIndex` | PE_Exam_CBT.py:223 | the radio choice maps to a position holding that text, and no earlier position holds it |
| `RowImport.OptionTexts` | PE_Exam_CBT.py:49-51 | the texts of the filled cells from column B on, in column order (a filled cell is one whose value is present and non-empty) |
| `RowImport.BoldOffsets` | PE_Exam_CBT.py:49-54 | the offsets among all cells from column B on, blanks counted, of the filled cells that are bold, in column order |
| `RowImport.ParseRow` | PE_Exam_CBT.py:38-57 | no question when the prompt cell is blank; otherwise the prompt's text, the options, the correct offsets and the identity from the prompt, kept only when both the options and the offsets are non-empty |
| `RowImport.RowEntries` | PE_Exam_CBT.py:36-57 | the entries of the kept rows of a run of rows, in row order |
| `RowImport.SheetEntries` | PE_Exam_CBT.py:36 | a sheet's entries are those of its rows after the first (`min_row=2`) |
| `RowImport.BookEntries` | PE_Exam_CBT.py:35-36 | the entries of all sheets, sheet after sheet |
| `RowImport.CollectOptions` | PE_Exam_CBT.py:45-54 | the loop's option list is the filled cells' texts in order, and its correct list is the offsets of the filled bold cells |
| `RowImport.ParseRows` | PE_Exam_CBT.py:36-57 | one new question per kept row, in row order, built from that row's entry with cleared response state, all distinct |
| `RowImport.ParseWorkbook` | PE_Exam_CBT.py:31-58 | the pool is the kept rows of every sheet after its header, sheet after sheet, as new distinct questions |
| `RowImport.BoldOffsetsSpec` | PE_Exam_CBT.py:49-54 | an offset is a correct index if and only if its cell is filled and bold |
| `RowImport.OptionPosition` | PE_Exam_CBT.py:49-51 | a filled cell's option sits at the position given by the number of filled cells before it |
| `RowImport.CorrectIndexPosition` | PE_Exam_CBT.py:49-54 | a correct index counts blanks too: the bold cell's option sits at or before the index, exactly at it if and only if no blank cell precedes |
| `RowImport.ParseRowSpec` | PE_Exam_CBT.py:38-57 | a row is kept if and only if its prompt is filled and some later cell is filled and bold; a kept row keeps the prompt, gets the identity from it, and has non-empty options and correct list |
| `RowImport.HeaderSkipped` | PE_Exam_CBT.py:36 | a sheet's first row never contributes a question |
| `RowImport.BookEntriesFromRows` | PE_Exam_CBT.py:35-57 | every imported question comes from a non-header row of some sheet that the row rule keeps |
| `AnswerKeys.OptionLabel` | PE_Exam_CBT.py:71-73 | the letter at position idx of "A" to "Z", or `'?'` from position 26 on |
| `AnswerKeys.Letters` | PE_Exam_CBT.py:89-90 | the letter of each index, in order (`lets[x]`) |
| `AnswerKeys.Join` | PE_Exam_CBT.py:90 | the letters joined by `", "` |
| `AnswerKeys.AnswerKey` | PE_Exam_CBT.py:88-90 | None when some correct index is 26 or more (the lookup has no fallback), otherwise the sorted indices' letters joined by `", "` |
| `AnswerKeys.AscendingBelow` | PE_Exam_CBT.py:90 | every listed index is below the bound |
| `AnswerKeys.AscendingBelowSpec` | PE_Exam_CBT.py:90 | the listed indices are strictly increasing and are exactly the set's elements below the bound (`sorted`) |
| `AnswerKeys.AnswerKeyRoundTrip` | PE_Exam_CBT.py:88-90 | the key fails if and only if some correct index is past Z; otherwise it reads back to every correct index exactly once, in ascending order |
| `AnswerKeys.AnswerKeyColumn` | PE_Exam_CBT.py:85-91 | the key column exists if and only if every question's key exists, and then row i is question i's key |
| `AnswerKeys.KeyUsesOptionLabels` | PE_Exam_CBT.py:71-73 | the key letter for index x is the label line 73 prints at position x; a correct index at or past the options (a bold cell after a blank, see `RowImport.CorrectIndexPosition` and `Questions.OutOfRangeKeyNeverCorrect`) gets a letter no printed option carries |
| `AnswerKeys.BoldCellKeyLetter` | PE_Exam_CBT.py:49-54 | for a bold cell at offset i below 26, its option is printed at the count of filled cells before it, and the key letter for i is that option's printed label if and only if no blank cell precedes the bold cell |
| `AnswerKeys.BlankBeforeBoldExample` | PE_Exam_CBT.py:49-90 | cells [blank, bold "X"] give options ["X"] (printed "A. X") and correct offsets [1], whose key is "B" |
| `AnswerKeys.OptionLabelsDistinct` | PE_Exam_CBT.py:73 | labels tell options apart up to Z; past it every option is labelled '?' |
| `AnswerKeys.KeyExample` | PE_Exam_CBT.py:88-90 | correct indices {2, 0} give the key "A, C" |
| `ExamApp.IsSample` | PE_Exam_CBT.py:145-146 | what `random.sample(pool, min(20, len(pool)))` yields: min(20, n) distinct positions of the pool |
| `ExamApp.Simulator.Valid` | PE_Exam_CBT.py:100-297 | the state every command keeps: at most 20 distinct exam questions, the cursor on one of them in every stage but SETUP, and pool and exam questions well formed with selections naming their options |
| `ExamApp.Simulator.constructor` | PE_Exam_CBT.py:100-108 | empty pool and exam, cursor 0, stage SETUP |
| `ExamApp.Simulator.Upload` | PE_Exam_CBT.py:117-124 | the pool is replaced by the new questions imported from the workbook, and the exam, the cursor and the stage are unchanged |
| `ExamApp.Simulator.Start` | PE_Exam_CBT.py:142-152 | with a non-empty pool in SETUP: the exam is min(20, n) distinct sampled pool questions, each with cleared selections and flag; other pool questions are untouched; the cursor is 0 and the stage is ACTIVE |
| `ExamApp.Simulator.Previous` | PE_Exam_CBT.py:231-234 | offered past the first question; moves the cursor back one and keeps it in range |
| `ExamApp.Simulator.Next` | PE_Exam_CBT.py:240-243 | offered before the last question; moves the cursor on one and keeps it in range |
| `ExamApp.Simulator.OpenReview` | PE_Exam_CBT.py:235-247 | "Review All Questions" and "Go to Review" both go from ACTIVE to REVIEW |
| `ExamApp.Simulator.ToggleFlag` | PE_Exam_CBT.py:184-187 | flips the current question's flag; its selections and every other exam question's flag are unchanged |
| `ExamApp.Simulator.SetCheckbox` | PE_Exam_CBT.py:196-205 | on a multi-select question, checking adds only index i and clearing discards only index i |
| `ExamApp.Simulator.ChooseOption` | PE_Exam_CBT.py:206-224 | on a single-select question, a choice replaces the selections with the first position holding that text; no choice changes nothing |
| `ExamApp.Simulator.Grid` | PE_Exam_CBT.py:253-259 | one tile per exam question, in exam order, each as ReviewStatus gives it |
| `ExamApp.Simulator.Jump` | PE_Exam_CBT.py:260-264 | a tile goes from REVIEW to ACTIVE with the cursor on that question |
| `ExamApp.Simulator.Submit` | PE_Exam_CBT.py:269-271 | goes from REVIEW to REPORT |
| `ExamApp.Simulator.Score` | PE_Exam_CBT.py:276-278 | in REPORT the total is between 1 and 20, so the percentage never divides by zero; the score is at most the total and counts the positions graded correct |
| `ExamApp.Simulator.Reset` | PE_Exam_CBT.py:155-160 | "End Exam / Reset" (any stage but SETUP) and "Start New Exam" (REPORT, lines 295-296) go to SETUP and change only the stage |
| `ExamApp.SampleExists` | PE_Exam_CBT.py:145-146 | a sample of min(20, n) distinct positions always exists, so Start can always be called |

## Left out

- Streamlit rendering is left out: page setup, columns, captions, the progress bar, the results table and `st.rerun`. Each button is a method instead, and the condition under which the page shows the button is the method's precondition.
- Streamlit widget state is left out. The checkbox and radio widgets are keyed by question position (`q{q_idx}_opt{i}`, `q{q_idx}_radio`). The model takes each checkbox or radio event as given.
- Workbook loading and font objects (openpyxl) are left out. A row is column A's cell plus the cells from column B on. Each cell is its value as text (`str(value)`, missing when empty) plus a bold flag.
- RowImport.Filled: a cell counts as filled when its text is present and non-empty. The source tests the raw value's truthiness, so a numeric 0 or `False` cell is blank there but filled here.
- QuestionIds.IsIdChar: `\w` is taken as ASCII letters, digits and underscore. Python's `\w` also accepts every Unicode letter and digit. Whitespace (`\s`) uses Python's full `str.isspace` set.
- Word document construction (python-docx) is left out: headings, the numbered question list, the table, the page break and the in-memory buffer. Only the option labels and the answer-key strings are modelled. The document's random "Generated ID" is left out too.
- `random.sample` is not modelled as a distribution. It is the `picks` argument of Start: any `min(20, n)` distinct pool positions. The Word export's own sample is the question list passed to AnswerKeyColumn.
- The percentage score (floating point) is left out. Score gives the integer score and total, and shows that the total is never 0.
- Upload errors are left out. A workbook that fails to load leaves the pool unchanged, which is the same as not calling Upload.
- No progress ledger, distractor generator, formula question generator, targeted drill or CSV export is modelled. `PE_Exam_CBT.py` has none of them.
