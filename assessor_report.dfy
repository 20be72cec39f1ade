/** The assessor report (create_assessor_report.py): read a vendor
    questionnaire, resolve every question against the golden reference
    table (adding a row for a question it does not hold yet), and classify
    every answer as matching, an issue or a gap, with a recommendation.

    The language models behind generate_gap and generate_recommendation,
    json.loads and the reference resolver are parameters. */
module AssessorReport {
  import opened Values
  import opened Text

  /** The three spellings of a not-applicable answer the classifier knows. */
  predicate IsNotApplicable(response: string)
  {
    response == "n/a" || response == "N/A" || response == "N/a"
  }

  /** The marker searched for in the evidence classifier's raw output. */
  const Contradicts := "contradicts"

  /** The recommendation of an N/A answer given without evidence. */
  const NoEvidenceNotice := "N/A Response but no additional information given (This row may have been hidden)"

  /** The explanation generate_recommendation returns when the model's
      output is not valid JSON. */
  const FailedExplanation := "LLM generation failed"

  /** The values written into the Issue and Gap columns. */
  datatype Flag = Yes | No

  // ---------------------------------------------------------------------
  // get_sig_df_from_csv

  /** One row of the vendor CSV: the columns the report reads. */
  datatype CsvRow = CsvRow(question: Cell, response: Cell, info: Cell)

  /** One row of the questionnaire frame: Ques Num, SIG Question Text,
      Response, Additional Information, Category. */
  datatype SigRow = SigRow(quesNum: nat, question: Cell, response: string, info: Cell, category: Cell)

  /** "Yes" and "No" are kept; every other cell becomes "N/A". */
  function NormaliseResponse(c: Cell): (r: string)
    ensures c == Str("Yes") || c == Str("No") ==> Str(r) == c
    ensures c != Str("Yes") && c != Str("No") ==> r == "N/A"
  {
    if c == Str("Yes") || c == Str("No") then c.s else "N/A"
  }

  /** The frame row for a CSV row with the given question number; the
      Category column is left blank. */
  function ToSigRow(row: CsvRow, quesNum: nat): (r: SigRow)
    ensures r.quesNum == quesNum && r.question == row.question && r.info == row.info && r.category == NaN
    ensures r.response == "Yes" || r.response == "No" || r.response == "N/A"
    ensures r.response != "N/A" ==> row.response == Str(r.response)
  {
    SigRow(quesNum, row.question, NormaliseResponse(row.response), row.info, NaN)
  }

  /** The frame after reading `csv`, in index order: each row read is put
      on top of the rows read before it. */
  function SigFrame(csv: seq<CsvRow>): (frame: seq<SigRow>)
    ensures |frame| == |csv|
  {
    if csv == [] then []
    else [ToSigRow(csv[|csv| - 1], |csv|)] + SigFrame(csv[..|csv| - 1])
  }

  /** The frame is the input reversed: the row at index k is input row
      n-1-k, numbered n-k. */
  lemma {:induction false} SigFrameReversed(csv: seq<CsvRow>)
    ensures forall k :: 0 <= k < |csv| ==> SigFrame(csv)[k] == ToSigRow(csv[|csv| - 1 - k], |csv| - k)
  {
    if csv != [] {
      var n := |csv| - 1;
      SigFrameReversed(csv[..n]);
      assert SigFrame(csv) == [ToSigRow(csv[n], |csv|)] + SigFrame(csv[..n]);
      forall k | 1 <= k <= n
        ensures SigFrame(csv)[k] == ToSigRow(csv[|csv| - 1 - k], |csv| - k)
      {
        assert SigFrame(csv)[k] == SigFrame(csv[..n])[k - 1];
        assert csv[..n][n - 1 - (k - 1)] == csv[|csv| - 1 - k];
      }
    }
  }

  /** Reading one more row puts its frame row on top. */
  lemma SigFramePush(csv: seq<CsvRow>, i: nat)
    requires i < |csv|
    ensures SigFrame(csv[..i + 1]) == [ToSigRow(csv[i], i + 1)] + SigFrame(csv[..i])
  {
    assert csv[..i + 1][..i] == csv[..i];
  }

  /** get_sig_df_from_csv: for every CSV row, in order, put the
      normalised row on top of the frame (the label -1, shift and sort of
      the original, by their net effect). */
  method ReadSigCsv(csv: seq<CsvRow>) returns (frame: seq<SigRow>)
    ensures frame == SigFrame(csv)
  {
    frame := [];
    for i := 0 to |csv|
      invariant frame == SigFrame(csv[..i])
    {
      SigFramePush(csv, i);
      frame := [ToSigRow(csv[i], i + 1)] + frame;
    }
    assert csv[..|csv|] == csv;
  }

  // ---------------------------------------------------------------------
  // format_rec

  /** A known-issue field as the block shows it: "n/a" when empty. */
  function Shown(c: Cell): (r: string)
    ensures c == Str("") ==> r == "n/a"
    ensures c != Str("") ==> r == Render(c)
  {
    if c == Str("") then "n/a" else Render(c)
  }

  /** The heading the known-issue block opens with. */
  const IssueHeading := "Issue Recommendation:\n    Issue Number: "

  /** The known-issue block every recommendation ends with. */
  function IssueBlock(issueNum: Cell, issueRec: Cell): (block: string)
    ensures |block| > |IssueHeading| && block[..|IssueHeading|] == IssueHeading
  {
    IssueHeading + (Shown(issueNum) + ",\n    Issue Recommendation: " + Shown(issueRec) + "\n    ")
  }

  const ExplanationLabel := "Explanation: "

  /** The known-issue block does not open with the explanation label. */
  lemma BlockIsUnlabelled(block: string)
    requires |block| > |IssueHeading| && block[..|IssueHeading|] == IssueHeading
    ensures !(|block| >= |ExplanationLabel| && block[..|ExplanationLabel|] == ExplanationLabel)
  {
    assert block[0] == IssueHeading[0] == 'I';
  }

  /** The layout of an explained recommendation: label, explanation, a
      blank line, then the block. */
  lemma ExplainedLayout(e: string, block: string)
    ensures var r := ExplanationLabel + e + "\n\n" + block;
      && |r| == |ExplanationLabel| + |e| + 2 + |block|
      && r[..|ExplanationLabel|] == ExplanationLabel
      && r[|ExplanationLabel|..|ExplanationLabel| + |e|] == e
      && r[|ExplanationLabel| + |e|..|ExplanationLabel| + |e| + 2] == "\n\n"
      && r[|r| - |block|..] == block
  {
  }

  /** format_rec: the known-issue block, preceded by the explanation when
      one is given. The block always ends the text, the explanation label
      starts it exactly when an explanation is given, and the explanation
      can be read back from between the two. */
  function FormatRec(issueNum: Cell, issueRec: Cell, explanation: Option<string>): (r: string)
    ensures var block := IssueBlock(issueNum, issueRec);
      |r| >= |block| && r[|r| - |block|..] == block
    ensures explanation.None? <==> r == IssueBlock(issueNum, issueRec)
    ensures explanation.Some? <==> (|r| >= |ExplanationLabel| && r[..|ExplanationLabel|] == ExplanationLabel)
    ensures explanation.Some? ==>
      var e, block := explanation.value, IssueBlock(issueNum, issueRec);
      |r| == |ExplanationLabel| + |e| + 2 + |block| &&
      r[|ExplanationLabel|..|ExplanationLabel| + |e|] == e &&
      r[|ExplanationLabel| + |e|..|ExplanationLabel| + |e| + 2] == "\n\n"
  {
    var block := IssueBlock(issueNum, issueRec);
    BlockIsUnlabelled(block);
    match explanation
    case None => block
    case Some(e) =>
      ExplainedLayout(e, block);
      ExplanationLabel + e + "\n\n" + block
  }

  // ---------------------------------------------------------------------
  // The golden reference table

  /** One row of the golden reference table: SIG Question, Response,
      Standard Context, Issue Description, the issue number column and
      the issue recommendation column. */
  datatype RefEntry = RefEntry(question: Cell, response: Cell, context: Cell,
                               issueDescription: Cell, issueNum: Cell, issueRec: Cell)

  /** The position of the first row whose question is exactly `q`. */
  function FirstMatch(rows: seq<RefEntry>, q: string): (r: Option<nat>)
    ensures r.Some? ==> (r.value < |rows| && rows[r.value].question == Str(q) &&
                         forall j :: 0 <= j < r.value ==> rows[j].question != Str(q))
    ensures r.None? ==> forall j :: 0 <= j < |rows| ==> rows[j].question != Str(q)
  {
    if rows == [] then None
    else if rows[0].question == Str(q) then Some(0)
    else
      match FirstMatch(rows[1..], q)
      case None => None
      case Some(i) => Some(i + 1)
  }

  /** Appending a row never changes the row a question already finds. */
  lemma FirstMatchStable(rows: seq<RefEntry>, e: RefEntry, q: string)
    requires FirstMatch(rows, q).Some?
    ensures FirstMatch(rows + [e], q) == FirstMatch(rows, q)
  {
    forall j | 0 <= j < |rows|
      ensures (rows + [e])[j] == rows[j]
    {
    }
  }

  /** A question that finds nothing finds the row appended for it. */
  lemma FirstMatchAppended(rows: seq<RefEntry>, e: RefEntry, q: string)
    requires FirstMatch(rows, q).None? && e.question == Str(q)
    ensures FirstMatch(rows + [e], q) == Some(|rows|)
  {
    forall j | 0 <= j < |rows|
      ensures (rows + [e])[j] == rows[j]
    {
    }
    assert (rows + [e])[|rows|] == e;
  }

  /** The row added for a question the table does not hold: the
      resolver's answer and context; no known issue. */
  function NewEntry(q: string, resolved: (Cell, Cell)): RefEntry
  {
    RefEntry(Str(q), resolved.0, resolved.1, NaN, NaN, NaN)
  }

  /** The row a lookup of `q` finds: the first whose question is `q`. */
  function Lookup(rows: seq<RefEntry>, q: string): (r: Option<RefEntry>)
    ensures r.Some? ==> r.value in rows && r.value.question == Str(q)
  {
    match FirstMatch(rows, q)
    case None => None
    case Some(i) => Some(rows[i])
  }

  /** A lookup finds nothing exactly when no row holds the question. */
  lemma LookupMisses(rows: seq<RefEntry>, q: string)
    ensures Lookup(rows, q).None? <==> forall j :: 0 <= j < |rows| ==> rows[j].question != Str(q)
  {
  }

  /** The reference row question `q` is compared with: the row it finds,
      or else the row resolved for it. */
  function Resolved(rows: seq<RefEntry>, q: string, resolve: string -> (Cell, Cell)): (r: RefEntry)
    ensures r.question == Str(q)
    ensures Lookup(rows, q).Some? ==> r == Lookup(rows, q).value
    ensures Lookup(rows, q).None? ==> r == NewEntry(q, resolve(q))
  {
    match Lookup(rows, q)
    case Some(e) => e
    case None => NewEntry(q, resolve(q))
  }

  /** The table after a lookup-or-append of `q`: unchanged on a hit, one
      resolved row longer on a miss; either way `q` then finds its
      resolved row. */
  function Grow(rows: seq<RefEntry>, q: string, resolve: string -> (Cell, Cell)): (r: seq<RefEntry>)
    ensures rows <= r && |r| <= |rows| + 1
    ensures Lookup(r, q) == Some(Resolved(rows, q, resolve))
  {
    if Lookup(rows, q).Some? then rows
    else
      FirstMatchAppended(rows, NewEntry(q, resolve(q)), q);
      rows + [NewEntry(q, resolve(q))]
  }

  /** A row that is found stays found, as the same row, when the table grows. */
  lemma GrowKeepsFinds(rows: seq<RefEntry>, p: string, q: string, resolve: string -> (Cell, Cell))
    requires Lookup(rows, q).Some?
    ensures Lookup(Grow(rows, p, resolve), q) == Lookup(rows, q)
  {
    if Lookup(rows, p).None? {
      FirstMatchStable(rows, NewEntry(p, resolve(p)), q);
    }
  }

  /** Growing the table for one question does not change the row any
      question resolves to. */
  lemma ResolvedStable(rows: seq<RefEntry>, p: string, q: string, resolve: string -> (Cell, Cell))
    ensures Resolved(Grow(rows, p, resolve), q, resolve) == Resolved(rows, q, resolve)
  {
    if Lookup(rows, q).Some? {
      GrowKeepsFinds(rows, p, q, resolve);
    } else if Lookup(rows, p).None? && p != q {
      var r := Grow(rows, p, resolve);
      LookupMisses(rows, q);
      LookupMisses(r, q);
      assert r[|rows|].question == Str(p);
    }
  }

  /** The golden reference table, which the report only ever appends to. */
  class GoldenSig {
    var rows: seq<RefEntry>

    constructor (initial: seq<RefEntry>)
      ensures rows == initial
    {
      rows := initial;
    }

    /** The row a lookup of `q` finds: the first with that question. */
    function Find(q: string): Option<RefEntry>
      reads this
    {
      Lookup(rows, q)
    }

    /** Look `q` up; when no row holds it, resolve it and append the new
        row. The row returned is the one every later lookup finds. */
    method LookupOrAppend(q: string, resolve: string -> (Cell, Cell)) returns (entry: RefEntry)
      modifies this
      ensures old(Find(q)).Some? ==> rows == old(rows) && entry == old(Find(q)).value
      ensures old(Find(q)).None? ==> rows == old(rows) + [NewEntry(q, resolve(q))] && entry == NewEntry(q, resolve(q))
      ensures Find(q) == Some(entry)
      ensures forall p :: old(Find(p)).Some? ==> Find(p) == old(Find(p))
      ensures rows == Grow(old(rows), q, resolve) && entry == Resolved(old(rows), q, resolve)
    {
      var i := FirstMatch(rows, q);
      if i.Some? {
        entry := rows[i.value];
      } else {
        entry := NewEntry(q, resolve(q));
        forall p | FirstMatch(rows, p).Some?
          ensures FirstMatch(rows + [entry], p) == FirstMatch(rows, p)
        {
          FirstMatchStable(rows, entry, p);
        }
        FirstMatchAppended(rows, entry, q);
        rows := rows + [entry];
      }
    }
  }

  // ---------------------------------------------------------------------
  // compare_to_reference

  /** Every question of the frame is a string (a missing question makes
      the reference lookup raise). */
  predicate QuestionsAreText(frame: seq<SigRow>)
  {
    forall k :: 0 <= k < |frame| ==> frame[k].question.Str?
  }

  /** How many rows, from the top, have a string question: the rows
      compared before a non-string question raises. */
  function TextPrefix(frame: seq<SigRow>): (n: nat)
    ensures n <= |frame|
    ensures forall k :: 0 <= k < n ==> frame[k].question.Str?
    ensures n < |frame| ==> !frame[n].question.Str?
  {
    if frame == [] || !frame[0].question.Str? then 0
    else
      var m := TextPrefix(frame[1..]);
      assert forall k :: 1 <= k < m + 1 ==> frame[k] == frame[1..][k - 1];
      m + 1
  }

  /** The string-question prefix is pinned down by the first row that is not
      a string: it ends exactly there. */
  lemma TextPrefixAt(frame: seq<SigRow>, i: nat)
    requires i <= |frame|
    requires forall k :: 0 <= k < i ==> frame[k].question.Str?
    requires i < |frame| ==> !frame[i].question.Str?
    ensures TextPrefix(frame) == i
    ensures QuestionsAreText(frame) <==> i == |frame|
  {
  }

  /** The table after looking up (and, on a miss, adding) the questions
      of `frame`, one after another. */
  function TableAfter(rows: seq<RefEntry>, frame: seq<SigRow>, resolve: string -> (Cell, Cell)): (r: seq<RefEntry>)
    requires QuestionsAreText(frame)
    ensures rows <= r
  {
    if frame == [] then rows
    else
      var n := |frame| - 1;
      Grow(TableAfter(rows, frame[..n], resolve), frame[n].question.s, resolve)
  }

  /** One step of the comparison: the table after a frame is the table
      after all but its last row, grown by the last row's question. */
  lemma TableAfterLast(rows: seq<RefEntry>, frame: seq<SigRow>, resolve: string -> (Cell, Cell))
    requires QuestionsAreText(frame) && frame != []
    ensures QuestionsAreText(frame[..|frame| - 1])
    ensures TableAfter(rows, frame, resolve) ==
            Grow(TableAfter(rows, frame[..|frame| - 1], resolve), frame[|frame| - 1].question.s, resolve)
  {
  }

  /** Comparing rows never changes the row a question resolves to. */
  lemma {:induction false} ResolvedAfter(rows: seq<RefEntry>, frame: seq<SigRow>, q: string,
                                         resolve: string -> (Cell, Cell))
    requires QuestionsAreText(frame)
    ensures Resolved(TableAfter(rows, frame, resolve), q, resolve) == Resolved(rows, q, resolve)
  {
    if frame != [] {
      var n := |frame| - 1;
      ResolvedAfter(rows, frame[..n], q, resolve);
      ResolvedStable(TableAfter(rows, frame[..n], resolve), frame[n].question.s, q, resolve);
    }
  }

  /** After the comparison the last question of the frame finds the row
      it resolved to. */
  lemma FoundLast(rows: seq<RefEntry>, frame: seq<SigRow>, resolve: string -> (Cell, Cell))
    requires QuestionsAreText(frame) && frame != []
    ensures var q := frame[|frame| - 1].question.s;
      Lookup(TableAfter(rows, frame, resolve), q) == Some(Resolved(rows, q, resolve))
  {
    var n := |frame| - 1;
    ResolvedAfter(rows, frame[..n], frame[n].question.s, resolve);
  }

  /** A hit stays the same hit in any table that extends the table. */
  lemma LookupPrefix(a: seq<RefEntry>, b: seq<RefEntry>, q: string)
    requires a <= b && Lookup(a, q).Some?
    ensures Lookup(b, q) == Lookup(a, q)
  {
    var i := FirstMatch(a, q).value;
    assert b[i] == a[i];
    assert forall j :: 0 <= j < i ==> b[j] == a[j];
  }

  /** Being a prefix is transitive. */
  lemma PrefixTrans(a: seq<RefEntry>, b: seq<RefEntry>, c: seq<RefEntry>)
    requires a <= b && b <= c
    ensures a <= c
  {
    assert forall i :: 0 <= i < |a| ==> a[i] == b[i] == c[i];
  }

  /** The table after a prefix of the frame is a prefix of the table after
      the whole frame. */
  lemma {:induction false} TableAfterPrefix(rows: seq<RefEntry>, frame: seq<SigRow>, m: nat, resolve: string -> (Cell, Cell))
    requires QuestionsAreText(frame) && m <= |frame|
    ensures QuestionsAreText(frame[..m])
    ensures TableAfter(rows, frame[..m], resolve) <= TableAfter(rows, frame, resolve)
  {
    if m < |frame| {
      var n := |frame| - 1;
      TableAfterLast(rows, frame, resolve);
      TableAfterPrefix(rows, frame[..n], m, resolve);
      assert frame[..n][..m] == frame[..m];
      PrefixTrans(TableAfter(rows, frame[..m], resolve), TableAfter(rows, frame[..n], resolve),
                  TableAfter(rows, frame, resolve));
    } else {
      assert frame[..m] == frame;
    }
  }

  /** After the comparison question k of the frame finds the row it
      resolved to: its old row, or the row resolved and added for it. */
  lemma FoundAfter(rows: seq<RefEntry>, frame: seq<SigRow>, k: nat, resolve: string -> (Cell, Cell))
    requires QuestionsAreText(frame) && k < |frame|
    ensures Lookup(TableAfter(rows, frame, resolve), frame[k].question.s) == Some(Resolved(rows, frame[k].question.s, resolve))
  {
    var upto := frame[..k + 1];
    TableAfterPrefix(rows, frame, k + 1, resolve);
    FoundLast(rows, upto, resolve);
    assert upto[k] == frame[k];
    LookupPrefix(TableAfter(rows, upto, resolve), TableAfter(rows, frame, resolve), frame[k].question.s);
  }

  /** The same for every question of the frame. */
  lemma TableAfterFinds(rows: seq<RefEntry>, frame: seq<SigRow>, resolve: string -> (Cell, Cell))
    requires QuestionsAreText(frame)
    ensures forall k :: 0 <= k < |frame| ==>
      Lookup(TableAfter(rows, frame, resolve), frame[k].question.s) == Some(Resolved(rows, frame[k].question.s, resolve))
  {
    forall k | 0 <= k < |frame|
      ensures Lookup(TableAfter(rows, frame, resolve), frame[k].question.s) == Some(Resolved(rows, frame[k].question.s, resolve))
    {
      FoundAfter(rows, frame, k, resolve);
    }
  }

  /** Row j of the table, when it was added by the comparison, is the row
      resolved for question k of the frame, which the table did not hold. */
  lemma {:induction false} AddedRow(rows: seq<RefEntry>, frame: seq<SigRow>, j: nat, resolve: string -> (Cell, Cell))
    returns (k: nat)
    requires QuestionsAreText(frame) && |rows| <= j < |TableAfter(rows, frame, resolve)|
    ensures k < |frame| && Lookup(rows, frame[k].question.s).None?
    ensures TableAfter(rows, frame, resolve)[j] == NewEntry(frame[k].question.s, resolve(frame[k].question.s))
  {
    var n := |frame| - 1;
    var before := TableAfter(rows, frame[..n], resolve);
    if j < |before| {
      k := AddedRow(rows, frame[..n], j, resolve);
      assert frame[..n][k] == frame[k];
    } else {
      k := n;
      var p := frame[n].question.s;
      assert Lookup(before, p).None?;
      LookupMisses(before, p);
      LookupMisses(rows, p);
      assert forall i :: 0 <= i < |rows| ==> rows[i] == before[i];
    }
  }

  /** Row j of the table after the comparison was added for some question
      of the frame that the original table did not hold. */
  predicate AddedFor(rows: seq<RefEntry>, frame: seq<SigRow>, resolve: string -> (Cell, Cell), j: nat)
    requires QuestionsAreText(frame) && j < |TableAfter(rows, frame, resolve)|
  {
    exists k :: 0 <= k < |frame| && Lookup(rows, frame[k].question.s).None? &&
      TableAfter(rows, frame, resolve)[j] == NewEntry(frame[k].question.s, resolve(frame[k].question.s))
  }

  /** The table only grows by rows resolved for questions of the frame
      that the table did not hold. */
  lemma TableAfterAdds(rows: seq<RefEntry>, frame: seq<SigRow>, resolve: string -> (Cell, Cell))
    requires QuestionsAreText(frame)
    ensures forall j :: |rows| <= j < |TableAfter(rows, frame, resolve)| ==> AddedFor(rows, frame, resolve, j)
  {
    forall j | |rows| <= j < |TableAfter(rows, frame, resolve)|
      ensures AddedFor(rows, frame, resolve, j)
    {
      var k := AddedRow(rows, frame, j, resolve);
    }
  }

  /** No row appended beyond `rows` repeats the question of an earlier row. */
  predicate AppendedUnique(rows: seq<RefEntry>, t: seq<RefEntry>)
  {
    forall i, j :: 0 <= i < j < |t| && |rows| <= j ==> t[i].question != t[j].question
  }

  /** The lookups are memoised: a question resolved once is never resolved
      and appended again, so the table gains one row per distinct missing
      question. */
  lemma {:induction false} TableAfterMemoised(rows: seq<RefEntry>, frame: seq<SigRow>, resolve: string -> (Cell, Cell))
    requires QuestionsAreText(frame)
    ensures AppendedUnique(rows, TableAfter(rows, frame, resolve))
  {
    if frame != [] {
      var n := |frame| - 1;
      var before, p := TableAfter(rows, frame[..n], resolve), frame[n].question.s;
      TableAfterLast(rows, frame, resolve);
      TableAfterMemoised(rows, frame[..n], resolve);
      if Lookup(before, p).None? {
        var t := TableAfter(rows, frame, resolve);
        LookupMisses(before, p);
        assert t == before + [NewEntry(p, resolve(p))];
        forall i, j | 0 <= i < j < |t| && |rows| <= j
          ensures t[i].question != t[j].question
        {
          if j < |before| {
            assert t[i] == before[i] && t[j] == before[j];
          } else {
            assert t[i] == before[i] && t[j].question == Str(p);
          }
        }
      }
    }
  }

  /** The reference rows of compare_to_reference as written: a question
      the table does not hold sends the bare question text to the resolver,
      which indexes it as a column; the records it would return are a
      list, which is wrapped as a single row and subscripted by key; and
      they carry "Standards Context" where "Standard Context" is read.
      Each of these raises, so the references exist only when every
      question is found (None: raised). */
  function ReferencesAsWritten(rows: seq<RefEntry>, frame: seq<SigRow>): (r: Option<seq<RefEntry>>)
    ensures r.Some? <==> forall k :: 0 <= k < |frame| ==>
      frame[k].question.Str? && Lookup(rows, frame[k].question.s).Some?
    ensures r.Some? ==> (|r.value| == |frame| &&
      forall k :: 0 <= k < |frame| ==> r.value[k] == Lookup(rows, frame[k].question.s).value)
  {
    if frame == [] then Some([])
    else if !frame[0].question.Str? || Lookup(rows, frame[0].question.s).None? then None
    else
      var rest := ReferencesAsWritten(rows, frame[1..]);
      assert forall k :: 1 <= k < |frame| ==> frame[k] == frame[1..][k - 1];
      if rest.None? then None else Some([Lookup(rows, frame[0].question.s).value] + rest.value)
  }

  /** As written, a questionnaire with one question the golden table does
      not hold (here: an empty table) ends the report, though every question
      is a string; the intended comparison finds the row resolved for it. */
  lemma AsWrittenMissRaises(q: string, resolve: string -> (Cell, Cell))
    ensures var frame := [SigRow(1, Str(q), "Yes", NaN, NaN)];
      && QuestionsAreText(frame)
      && ReferencesAsWritten([], frame).None?
      && Lookup(TableAfter([], frame, resolve), q) == Some(NewEntry(q, resolve(q)))
  {
    var frame := [SigRow(1, Str(q), "Yes", NaN, NaN)];
    FoundAfter([], frame, 0, resolve);
  }

  /** The four values compare_to_reference records for one row: the
      answer matches the reference answer, evidence was given, the
      evidence classifier's output (asked only when evidence was given),
      and the reference row's standards context. */
  predicate RowCompared(row: SigRow, ref: RefEntry, classifyEvidence: (string, string, string) -> string,
                        same: bool, provided: bool, support: string, context: Cell)
    requires row.question.Str?
  {
    && same == (Str(row.response) == ref.response)
    && provided == row.info.Str?
    && support == (if row.info.Str? then classifyEvidence(row.question.s, row.response, row.info.s) else "")
    && context == ref.context
  }

  /** One turn of compare_to_reference for a row with a string question:
      find or add its reference row, compare the answers, and ask the
      evidence classifier when evidence was given ("" otherwise). */
  method CompareRow(table: GoldenSig, row: SigRow, resolve: string -> (Cell, Cell),
                    classifyEvidence: (string, string, string) -> string)
    returns (ref: RefEntry, same: bool, support: string)
    requires row.question.Str?
    modifies table
    ensures table.rows == Grow(old(table.rows), row.question.s, resolve)
    ensures ref == Resolved(old(table.rows), row.question.s, resolve)
    ensures RowCompared(row, ref, classifyEvidence, same, row.info.Str?, support, ref.context)
  {
    ref := table.LookupOrAppend(row.question.s, resolve);
    same := Str(row.response) == ref.response;
    support := if row.info.Str? then classifyEvidence(row.question.s, row.response, row.info.s) else "";
  }

  /** The turn of compare_to_reference for row `index` when the rows above
      it have been compared: the table grows by this row's question, and
      this row's slots are filled in. */
  method CompareTurn(table: GoldenSig, frame: seq<SigRow>, index: nat, ghost rows0: seq<RefEntry>,
                     resolve: string -> (Cell, Cell), classifyEvidence: (string, string, string) -> string,
                     answerSame: seq<bool>, aiSupport: seq<string>, context: seq<Cell>)
    returns (answerSame': seq<bool>, aiSupport': seq<string>, context': seq<Cell>)
    requires index < |frame| && index < |answerSame| && index < |aiSupport| && index < |context|
    requires forall k :: 0 <= k <= index ==> frame[k].question.Str?
    requires table.rows == TableAfter(rows0, frame[..index], resolve)
    modifies table
    ensures table.rows == TableAfter(rows0, frame[..index + 1], resolve)
    ensures |answerSame'| == |answerSame| && answerSame' == answerSame[index := answerSame'[index]]
    ensures |aiSupport'| == |aiSupport| && aiSupport' == aiSupport[index := aiSupport'[index]]
    ensures |context'| == |context| && context' == context[index := context'[index]]
    ensures RowCompared(frame[index], Resolved(rows0, frame[index].question.s, resolve), classifyEvidence,
                        answerSame'[index], frame[index].info.Str?, aiSupport'[index], context'[index])
  {
    ResolvedAfter(rows0, frame[..index], frame[index].question.s, resolve);
    assert frame[..index + 1][..index] == frame[..index];
    var ref, same, support := CompareRow(table, frame[index], resolve, classifyEvidence);
    answerSame', aiSupport', context' := answerSame[index := same], aiSupport[index := support], context[index := ref.context];
  }

  /** compare_to_reference: for each frame row, in index order, note
      whether evidence was given, find (or add) its reference row, compare
      the answer with the reference answer, and ask the evidence
      classifier when evidence was given. The three lists have one slot
      more than the frame has rows; that slot keeps its filler. A question
      that is not a string can never be found, not even after its row is
      added, so the second lookup raises: `ok` is then false. */
  method CompareToReference(table: GoldenSig, frame: seq<SigRow>,
                            resolve: string -> (Cell, Cell),
                            classifyEvidence: (string, string, string) -> string)
    returns (ok: bool, answerSame: seq<bool>, aiProvided: seq<bool>, aiSupport: seq<string>, context: seq<Cell>)
    modifies table
    ensures ok <==> QuestionsAreText(frame)
    ensures table.rows == TableAfter(old(table.rows), frame[..TextPrefix(frame)], resolve)
    ensures |answerSame| == |aiProvided| == |aiSupport| == |frame| + 1
    ensures |context| == |frame|
    ensures ok ==> forall k :: 0 <= k < |frame| ==>
      var ref := Resolved(old(table.rows), frame[k].question.s, resolve);
      table.Find(frame[k].question.s) == Some(ref) &&
      RowCompared(frame[k], ref, classifyEvidence, answerSame[k], aiProvided[k], aiSupport[k], context[k])
    ensures !answerSame[|frame|] && !aiProvided[|frame|] && aiSupport[|frame|] == ""
  {
    var n := |frame|;
    answerSame, aiProvided, aiSupport := seq(n + 1, _ => false), seq(n + 1, _ => false), seq(n + 1, _ => "");
    context := seq(n, _ => NaN);
    ghost var rows0 := table.rows;
    var index := 0;
    while index < n && frame[index].question.Str?
      invariant index <= n
      invariant forall k :: 0 <= k < index ==> frame[k].question.Str?
      invariant |answerSame| == |aiProvided| == |aiSupport| == n + 1 && |context| == n
      invariant table.rows == TableAfter(rows0, frame[..index], resolve)
      invariant forall k :: 0 <= k < index ==>
        RowCompared(frame[k], Resolved(rows0, frame[k].question.s, resolve), classifyEvidence,
                    answerSame[k], aiProvided[k], aiSupport[k], context[k])
      invariant !answerSame[n] && !aiProvided[n] && aiSupport[n] == ""
    {
      aiProvided := aiProvided[index := frame[index].info.Str?];
      answerSame, aiSupport, context :=
        CompareTurn(table, frame, index, rows0, resolve, classifyEvidence, answerSame, aiSupport, context);
      index := index + 1;
    }
    TextPrefixAt(frame, index);
    if index < n {
      // the row whose question is not a string raises
      aiProvided := aiProvided[index := frame[index].info.Str?];
      return false, answerSame, aiProvided, aiSupport, context;
    }
    assert frame[..n] == frame;
    TableAfterFinds(rows0, frame, resolve);
    ok := true;
  }

  // ---------------------------------------------------------------------
  // generate_recommendation, outside the model call

  /** The model's inputs: each cell that is not a string is replaced by a
      fixed notice. */
  function RecommendationInputs(question: Cell, stdContext: Cell, info: Cell): (r: (string, string, string))
    ensures r.0 == if question.Str? then question.s else "No question provided"
    ensures r.1 == if stdContext.Str? then stdContext.s else "No Standard Requirements context provided"
    ensures r.2 == if info.Str? then info.s else "No additional info provided"
  {
    (if question.Str? then question.s else "No question provided",
     if stdContext.Str? then stdContext.s else "No Standard Requirements context provided",
     if info.Str? then info.s else "No additional info provided")
  }

  /** The (status, explanation) pair read from the model's output: the
      failure pair when it is not JSON; None when subscripting the decoded
      value raises (not an object, or a key missing). */
  function ParseRecommendation(raw: string, parse: string -> Option<Json>): (r: Option<(Json, Json)>)
    ensures parse(raw).None? ==> r == Some((JStr("Failed"), JStr(FailedExplanation)))
    ensures r.None? <==> (parse(raw).Some? &&
                          !(parse(raw).value.JObj? && "status" in parse(raw).value.fields &&
                            "explanation and follow-up questions" in parse(raw).value.fields))
    ensures r.Some? && parse(raw).Some? ==>
      var fields := parse(raw).value.fields;
      r.value == (fields["status"], fields["explanation and follow-up questions"])
  {
    match parse(raw)
    case None => Some((JStr("Failed"), JStr(FailedExplanation)))
    case Some(j) =>
      if j.JObj? && "status" in j.fields && "explanation and follow-up questions" in j.fields
      then Some((j.fields["status"], j.fields["explanation and follow-up questions"]))
      else None
  }

  /** generate_recommendation: the model call on the defaulted inputs,
      then the parse. None when either raises. */
  function GenerateRecommendation(question: Cell, stdContext: Cell, info: Cell,
                                  recommend: (string, string, string) -> Option<string>,
                                  parse: string -> Option<Json>): (r: Option<(Json, Json)>)
    ensures var inputs := RecommendationInputs(question, stdContext, info);
      && (recommend(inputs.0, inputs.1, inputs.2).None? ==> r.None?)
      && (recommend(inputs.0, inputs.1, inputs.2).Some? ==>
            r == ParseRecommendation(recommend(inputs.0, inputs.1, inputs.2).value, parse))
  {
    var inputs := RecommendationInputs(question, stdContext, info);
    match recommend(inputs.0, inputs.1, inputs.2)
    case None => None
    case Some(raw) => ParseRecommendation(raw, parse)
  }

  // ---------------------------------------------------------------------
  // The classification of one row

  /** The result written for one row. */
  datatype Verdict = Verdict(issue: Flag, gap: Flag, recommendation: string)

  /** The reference row carries a known issue. */
  predicate HasKnownIssue(ref: RefEntry)
  {
    ref.issueDescription.Str? && |ref.issueDescription.s| > 0
  }

  /** The issue number and recommendation passed to format_rec. */
  function KnownIssue(ref: RefEntry): (r: (Cell, Cell))
    ensures HasKnownIssue(ref) ==> r == (ref.issueNum, ref.issueRec)
    ensures !HasKnownIssue(ref) ==> r == (Str(""), Str(""))
  {
    if HasKnownIssue(ref) then (ref.issueNum, ref.issueRec) else (Str(""), Str(""))
  }

  /** The explanation as format_rec sees it: Python None for JSON null,
      otherwise its text. */
  function ExplanationArg(explanation: Json, show: Json -> string): (r: Option<string>)
    ensures r.None? <==> explanation.JNull?
    ensures explanation.JStr? ==> r == Some(explanation.s)
  {
    if explanation.JNull? then None else Some(PyStr(explanation, show))
  }

  /** The decision table for one row. `explanation` is what the
      recommendation judge returned; it is read only in the branches that
      call the judge. */
  function Classify(answerSame: bool, response: string, aiProvided: bool, aiSupport: string,
                    ref: RefEntry, explanation: Json, show: Json -> string): (v: Verdict)
    ensures !(v.issue == Yes && v.gap == Yes)
    ensures answerSame ==> v == Verdict(No, No, "")
    ensures !answerSame && !IsNotApplicable(response) && aiProvided ==>
      (v.issue == Yes <==> Contains(aiSupport, Contradicts)) && (v.gap == Yes <==> v.issue == No) &&
      v.recommendation == FormatRec(KnownIssue(ref).0, KnownIssue(ref).1, ExplanationArg(explanation, show))
    ensures !answerSame && !IsNotApplicable(response) && !aiProvided ==>
      v == Verdict(Yes, No, FormatRec(KnownIssue(ref).0, KnownIssue(ref).1, None))
    ensures !answerSame && IsNotApplicable(response) ==> v.issue == No
    ensures !answerSame && IsNotApplicable(response) && aiProvided ==>
      (v.gap == Yes <==> Contains(aiSupport, Contradicts)) && v.recommendation == PyStr(explanation, show)
    ensures !answerSame && IsNotApplicable(response) && !aiProvided ==>
      v == Verdict(No, Yes, NoEvidenceNotice)
  {
    if answerSame then Verdict(No, No, "")
    else if !IsNotApplicable(response) then
      var (num, rec) := KnownIssue(ref);
      if aiProvided then
        var contradicts := Contains(aiSupport, Contradicts);
        Verdict(if contradicts then Yes else No, if !contradicts then Yes else No,
                FormatRec(num, rec, ExplanationArg(explanation, show)))
      else Verdict(Yes, No, FormatRec(num, rec, None))
    else if aiProvided then
      Verdict(No, if Contains(aiSupport, Contradicts) then Yes else No, PyStr(explanation, show))
    else Verdict(No, Yes, NoEvidenceNotice)
  }

  /** A matching answer is settled whatever else the row holds. */
  lemma MatchIgnoresEverythingElse(response1: string, aiProvided1: bool, aiSupport1: string, ref1: RefEntry, expl1: Json,
                                   response2: string, aiProvided2: bool, aiSupport2: string, ref2: RefEntry, expl2: Json,
                                   show: Json -> string)
    ensures Classify(true, response1, aiProvided1, aiSupport1, ref1, expl1, show)
         == Classify(true, response2, aiProvided2, aiSupport2, ref2, expl2, show)
  {
  }

  /** The evidence classifier's output matters only through whether it
      contains the marker: two outputs that agree on that give the same
      Issue and Gap. */
  lemma OnlyTheMarkerMatters(answerSame: bool, response: string, aiProvided: bool,
                             support1: string, support2: string, ref: RefEntry, explanation: Json,
                             show: Json -> string)
    requires Contains(support1, Contradicts) == Contains(support2, Contradicts)
    ensures var v1 := Classify(answerSame, response, aiProvided, support1, ref, explanation, show);
      var v2 := Classify(answerSame, response, aiProvided, support2, ref, explanation, show);
      v1 == v2
  {
  }

  /** The classification of row k of the frame, once the comparison has
      run; None when generate_recommendation raises (its model call, or
      subscripting what the model returned). */
  function RowVerdict(row: SigRow, answerSame: bool, aiProvided: bool, aiSupport: string, context: Cell,
                      ref: RefEntry, recommend: (string, string, string) -> Option<string>,
                      parse: string -> Option<Json>, show: Json -> string): (r: Option<Verdict>)
    ensures r.Some? ==> !(r.value.issue == Yes && r.value.gap == Yes)
    ensures answerSame ==> r == Some(Verdict(No, No, ""))
    ensures r.None? <==> (!answerSame && aiProvided &&
      GenerateRecommendation(row.question, context, row.info, recommend, parse).None?)
  {
    if answerSame || !aiProvided then
      Some(Classify(answerSame, row.response, aiProvided, aiSupport, ref, JNull, show))
    else
      match GenerateRecommendation(row.question, context, row.info, recommend, parse)
      case None => None
      case Some((_, explanation)) =>
        Some(Classify(answerSame, row.response, aiProvided, aiSupport, ref, explanation, show))
  }

  /** The classification loop of create_assessor_report: row by row, in
      index order, write Issue, Gap and Recommendation. An exception in
      generate_recommendation ends the report (None). */
  method ClassifyRows(table: GoldenSig, frame: seq<SigRow>,
                      answerSame: seq<bool>, aiProvided: seq<bool>, aiSupport: seq<string>, context: seq<Cell>,
                      recommend: (string, string, string) -> Option<string>,
                      parse: string -> Option<Json>, show: Json -> string)
    returns (verdicts: Option<seq<Verdict>>)
    requires QuestionsAreText(frame)
    requires |answerSame| > |frame| && |aiProvided| > |frame| && |aiSupport| > |frame|
    requires |context| >= |frame|
    requires forall k :: 0 <= k < |frame| ==> table.Find(frame[k].question.s).Some?
    ensures verdicts.Some? <==> forall k :: 0 <= k < |frame| ==>
      RowVerdict(frame[k], answerSame[k], aiProvided[k], aiSupport[k], context[k],
                 table.Find(frame[k].question.s).value, recommend, parse, show).Some?
    ensures verdicts.Some? ==> (|verdicts.value| == |frame| &&
      forall k :: 0 <= k < |frame| ==>
        Some(verdicts.value[k]) == RowVerdict(frame[k], answerSame[k], aiProvided[k], aiSupport[k], context[k],
                                              table.Find(frame[k].question.s).value, recommend, parse, show))
  {
    var out: seq<Verdict> := [];
    for index := 0 to |frame|
      invariant |out| == index
      invariant forall k :: 0 <= k < index ==>
        Some(out[k]) == RowVerdict(frame[k], answerSame[k], aiProvided[k], aiSupport[k], context[k],
                                   table.Find(frame[k].question.s).value, recommend, parse, show)
    {
      var row := frame[index];
      var ref := table.Find(row.question.s).value;
      var v: Verdict;
      if answerSame[index] {
        v := Verdict(No, No, "");
      } else if !IsNotApplicable(row.response) {
        var (num, rec) := KnownIssue(ref);
        if aiProvided[index] {
          var parsed := GenerateRecommendation(row.question, context[index], row.info, recommend, parse);
          if parsed.None? {
            return None;
          }
          var explanation := parsed.value.1;
          var contradicts := Contains(aiSupport[index], Contradicts);
          v := Verdict(if contradicts then Yes else No, if !contradicts then Yes else No,
                       FormatRec(num, rec, ExplanationArg(explanation, show)));
        } else {
          v := Verdict(Yes, No, FormatRec(num, rec, None));
        }
      } else {
        if aiProvided[index] {
          var parsed := GenerateRecommendation(row.question, context[index], row.info, recommend, parse);
          if parsed.None? {
            return None;
          }
          var explanation := parsed.value.1;
          v := Verdict(No, if Contains(aiSupport[index], Contradicts) then Yes else No, PyStr(explanation, show));
        } else {
          v := Verdict(No, Yes, NoEvidenceNotice);
        }
      }
      out := out + [v];
    }
    verdicts := Some(out);
  }

  // ---------------------------------------------------------------------
  // create_assessor_report

  /** One row of the assessor report: the questionnaire row, its standards
      context and its classification. */
  datatype ReportRow = ReportRow(row: SigRow, context: Cell, verdict: Verdict)

  /** The classification a questionnaire row gets from the reference row
      its question finds: the comparison values, then the decision table. */
  function ExpectedVerdict(row: SigRow, ref: RefEntry, classifyEvidence: (string, string, string) -> string,
                           recommend: (string, string, string) -> Option<string>,
                           parse: string -> Option<Json>, show: Json -> string): Option<Verdict>
    requires row.question.Str?
  {
    var support := if row.info.Str? then classifyEvidence(row.question.s, row.response, row.info.s) else "";
    RowVerdict(row, Str(row.response) == ref.response, row.info.Str?, support, ref.context,
               ref, recommend, parse, show)
  }

  /** create_assessor_report: read the questionnaire, compare it with the
      reference table (which may grow), then classify every row. None when
      generate_recommendation raises. */
  method CreateAssessorReport(table: GoldenSig, csv: seq<CsvRow>,
                              resolve: string -> (Cell, Cell),
                              classifyEvidence: (string, string, string) -> string,
                              recommend: (string, string, string) -> Option<string>,
                              parse: string -> Option<Json>, show: Json -> string)
    returns (report: Option<seq<ReportRow>>)
    modifies table
    ensures (exists k :: 0 <= k < |csv| && !csv[k].question.Str?) ==> report.None?
    ensures report.Some? <==> (QuestionsAreText(SigFrame(csv)) &&
      forall k :: 0 <= k < |csv| ==>
        var row := SigFrame(csv)[k];
        ExpectedVerdict(row, Resolved(old(table.rows), row.question.s, resolve),
                        classifyEvidence, recommend, parse, show).Some?)
    ensures table.rows == TableAfter(old(table.rows), SigFrame(csv)[..TextPrefix(SigFrame(csv))], resolve)
    ensures report.Some? ==> (|report.value| == |csv| &&
      forall k :: 0 <= k < |csv| ==>
        var r := report.value[k];
        && r.row == SigFrame(csv)[k]
        && r.row.question.Str?
        && var ref := Resolved(old(table.rows), r.row.question.s, resolve);
        && table.Find(r.row.question.s) == Some(ref)
        && r.context == ref.context
        && Some(r.verdict) == ExpectedVerdict(r.row, ref, classifyEvidence, recommend, parse, show))
  {
    var frame := ReadSigCsv(csv);
    SigFrameReversed(csv);
    var ok, answerSame, aiProvided, aiSupport, context := CompareToReference(table, frame, resolve, classifyEvidence);
    if !ok {
      return None;
    }
    forall k | 0 <= k < |csv|
      ensures csv[k].question.Str?
    {
      assert frame[|csv| - 1 - k].question == csv[k].question;
    }
    forall k | 0 <= k < |frame|
      ensures RowVerdict(frame[k], answerSame[k], aiProvided[k], aiSupport[k], context[k],
                         table.Find(frame[k].question.s).value, recommend, parse, show)
           == ExpectedVerdict(frame[k], Resolved(old(table.rows), frame[k].question.s, resolve),
                              classifyEvidence, recommend, parse, show)
    {
    }
    var verdicts := ClassifyRows(table, frame, answerSame, aiProvided, aiSupport, context, recommend, parse, show);
    if verdicts.None? {
      return None;
    }
    report := Some(seq(|frame|, k requires 0 <= k < |frame| => ReportRow(frame[k], context[k], verdicts.value[k])));
  }
}
