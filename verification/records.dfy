/**
 Loading the quiz: the rows a CSV reader has already decoded become
 question/answer pairs. The load is all-or-nothing: a decoding failure or a
 single row without exactly two fields fails it and no questions are kept.
 */
module Records {

  /** One question and the answer it expects, as two text fields. */
  datatype Question = Question(question: string, answer: string)

  /** What the CSV reader hands over. The reader stops at its first error.
      `Unreadable` carries that error when it is a lexing one (bad quoting,
      an I/O failure) met before any record of the wrong width. Otherwise
      `Rows` holds the records read, before the reader's own field-count
      check: the whole file, or at least every record up to the first of
      the wrong width, which is all that check looks at. */
  datatype Decoded = Rows(rows: seq<seq<string>>) | Unreadable(reason: string)

  datatype LoadError =
    | ReadError(reason: string)   // the reader's own failure, passed on as is
    | FormatError                 // the records agree in width, but that width is not two

  /** A load either yields every question or fails with nothing kept. */
  datatype Loaded = Loaded(questions: seq<Question>) | Failed(error: LoadError)

  /** The reader's failure for a record whose field count differs from the
      first record's: with no expected width configured, the first record
      sets it. */
  const FieldCountError: string := "wrong number of fields"

  /** The rows the reader accepts: all as wide as the first. */
  predicate SameWidth(rows: seq<seq<string>>) {
    forall i :: 0 <= i < |rows| ==> |rows[i]| == |rows[0]|
  }

  /** The shape every row must have: a question field and an answer field. */
  predicate WellFormed(rows: seq<seq<string>>) {
    forall i :: 0 <= i < |rows| ==> |rows[i]| == 2
  }

  /** Converts decoded rows into questions, in file order, or fails with
      `FormatError` as soon as one row has the wrong field count. */
  function ToQuestions(rows: seq<seq<string>>): (r: Loaded)
    ensures r.Loaded? <==> WellFormed(rows)
    ensures r.Failed? ==> r.error == FormatError
    ensures r.Loaded? ==> |r.questions| == |rows|
    ensures r.Loaded? ==> forall i :: 0 <= i < |rows| ==>
              r.questions[i] == Question(rows[i][0], rows[i][1])
  {
    if |rows| == 0 then Loaded([])
    else if |rows[0]| != 2 then Failed(FormatError)
    else match ToQuestions(rows[1..])
      case Failed(e) => Failed(e)
      case Loaded(rest) => Loaded([Question(rows[0][0], rows[0][1])] + rest)
  }

  /** The whole of the loader: a lexing failure is passed on; so is the
      reader's rejection of a record whose width differs from the first
      record's; otherwise the rows are converted. */
  function ReadCsv(input: Decoded): (r: Loaded)
    ensures input.Unreadable? ==> r == Failed(ReadError(input.reason))
    ensures input.Rows? ==> (r.Loaded? <==> WellFormed(input.rows))
    ensures input.Rows? && r.Failed? ==> (r.error == FormatError <==> SameWidth(input.rows))
    ensures input.Rows? && !SameWidth(input.rows) ==> r == Failed(ReadError(FieldCountError))
    ensures r.Loaded? ==> |r.questions| == |input.rows| && forall i :: 0 <= i < |input.rows| ==>
              r.questions[i] == Question(input.rows[i][0], input.rows[i][1])
  {
    match input
    case Unreadable(reason) => Failed(ReadError(reason))
    case Rows(rows) =>
      if !SameWidth(rows) then Failed(ReadError(FieldCountError))
      else ToQuestions(rows)
  }

  /** A ragged file fails in the reader, before the two-field check is reached. */
  lemma RaggedFileIsReadError()
    ensures ReadCsv(Rows([["a", "b"], ["c", "d", "e"]])) == Failed(ReadError(FieldCountError))
  {
  }

  /** A file whose records all have three fields passes the reader and fails
      the two-field check. */
  lemma WideFileIsFormatError()
    ensures ReadCsv(Rows([["a", "b", "c"], ["d", "e", "f"]])) == Failed(FormatError)
  {
  }

  /** The two-field rows that describe a list of questions. */
  function ToRows(qs: seq<Question>): (rows: seq<seq<string>>)
    ensures |rows| == |qs|
    ensures WellFormed(rows)
  {
    seq(|qs|, i requires 0 <= i < |qs| => [qs[i].question, qs[i].answer])
  }

  /** Writing questions out as rows and loading them back gives the same
      questions in the same order. */
  lemma RoundTrip(qs: seq<Question>)
    ensures ToQuestions(ToRows(qs)) == Loaded(qs)
  {
  }

  /** Rows survive the trip the other way too: a well-formed file is exactly
      the rows of the questions loaded from it. */
  lemma RowsRoundTrip(rows: seq<seq<string>>)
    requires WellFormed(rows)
    ensures ToRows(ToQuestions(rows).questions) == rows
  {
    var back := ToRows(ToQuestions(rows).questions);
    forall i | 0 <= i < |rows|
      ensures back[i] == rows[i]
    {
      assert |rows[i]| == 2;
      assert rows[i] == [rows[i][0], rows[i][1]];
    }
  }

  /** Loading appends: the questions of two files read back to back are those
      of the first followed by those of the second. */
  lemma {:induction false} LoadAppend(rows: seq<seq<string>>, more: seq<seq<string>>)
    requires WellFormed(rows) && WellFormed(more)
    ensures ToQuestions(rows + more) == Loaded(ToQuestions(rows).questions + ToQuestions(more).questions)
  {
    var all := rows + more;
    assert WellFormed(all) by {
      forall i | 0 <= i < |all|
        ensures |all[i]| == 2
      {
        if i >= |rows| {
          assert all[i] == more[i - |rows|];
        }
      }
    }
    var l := ToQuestions(all).questions;
    var r := ToQuestions(rows).questions + ToQuestions(more).questions;
    forall i | 0 <= i < |all|
      ensures l[i] == r[i]
    {
      if i >= |rows| {
        assert all[i] == more[i - |rows|];
      }
    }
  }
}
