/** The reference resolver (create_reference_SIG.py): for a batch of
    questionnaire questions, retrieve standards passages, let a model judge
    whether they are relevant, let a model pick the canonical Yes/No answer,
    and emit one reference record per question; a driver runs the batches
    over the whole questionnaire, retrying a failed batch once.

    The similarity index, the two language models and json.loads are
    parameters (an `Oracles` value); an exception that escapes an oracle
    or an indexing step is an explicit outcome. */
module ReferenceSig {
  import opened Values
  import opened Text

  /** Batches handed to the resolver by the runner. */
  const BatchSize := 8

  /** Passages retrieved per question. */
  const NumPassages := 3

  /** One retrieved passage: its `Heading` metadata and its document text. */
  datatype Hit = Hit(heading: string, document: string)

  /** The relevance prompt for one question: the question cell and its
      retrieved contexts (the prompt wording is not modelled). */
  datatype RelevancePrompt = RelevancePrompt(question: Cell, contexts: seq<string>)

  /** Everything outside the module that the resolver calls:
      the index query (None when it raises), the relevance model and the
      answer model (None when the call raises; one text per prompt
      expected, but any list may come back), and json.loads (None on a
      decode error). */
  datatype Oracles = Oracles(
    retrieve: (Cell, nat) -> Option<seq<Hit>>,
    judgeRelevance: seq<RelevancePrompt> -> Option<seq<string>>,
    answer: seq<Cell> -> Option<seq<string>>,
    parse: string -> Option<Json>)

  /** One row of the reference questionnaire. */
  datatype Record = Record(question: Cell, response: Json, context: string)

  /** The result of one process_question call: an exception escaped, the
      function returned None, or it returned its records. */
  datatype Outcome = Raised | NoRecords | Records(records: seq<Record>)

  /** The entries determine_response appends for an unparseable part and
      for a parsed part without a "Response" key. */
  const ErrorEntry := JStr("ERROR")
  const UnknownEntry := JStr("Unknown")

  // ---------------------------------------------------------------------
  // get_standards_context

  /** How one retrieved passage is rendered into the context list. */
  function PassageText(h: Hit): string
  {
    "Heading: " + h.heading + ", Content: " + h.document
  }

  /** get_standards_context: the top `numResults` passages for a question,
      rendered, in retrieval rank order. Indexing past what the index
      returned raises, as does the query itself. */
  function GetStandardsContext(question: Cell, numResults: nat, retrieve: (Cell, nat) -> Option<seq<Hit>>)
    : (r: Option<seq<string>>)
    ensures r.Some? <==> retrieve(question, numResults).Some? && |retrieve(question, numResults).value| >= numResults
    ensures r.Some? ==> (|r.value| == numResults &&
      forall i :: 0 <= i < numResults ==> r.value[i] == PassageText(retrieve(question, numResults).value[i]))
  {
    match retrieve(question, numResults)
    case None => None
    case Some(hits) =>
      if |hits| < numResults then None
      else Some(seq(numResults, i requires 0 <= i < numResults => PassageText(hits[i])))
  }

  /** The context lists of all questions, or None as soon as one query raises. */
  function AllContexts(questions: seq<Cell>, retrieve: (Cell, nat) -> Option<seq<Hit>>): (r: Option<seq<seq<string>>>)
    ensures r.Some? <==> forall i :: 0 <= i < |questions| ==> GetStandardsContext(questions[i], NumPassages, retrieve).Some?
    ensures r.Some? ==> (|r.value| == |questions| &&
      forall i :: 0 <= i < |questions| ==> r.value[i] == GetStandardsContext(questions[i], NumPassages, retrieve).value)
  {
    if questions == [] then Some([])
    else
      match GetStandardsContext(questions[0], NumPassages, retrieve)
      case None => None
      case Some(c) =>
        match AllContexts(questions[1..], retrieve)
        case None =>
          assert forall i :: 1 <= i < |questions| ==> questions[1..][i - 1] == questions[i];
          None
        case Some(cs) => Some([c] + cs)
  }

  // ---------------------------------------------------------------------
  // determine_response

  /** The entry for one line of a model text. A line that decodes to
      something other than an object makes `.get` raise: None. */
  function PartEntry(part: string, parse: string -> Option<Json>): (r: Option<Json>)
    ensures r.None? <==> parse(part).Some? && !parse(part).value.JObj?
    ensures parse(part).None? ==> r == Some(ErrorEntry)
  {
    match parse(part)
    case None => Some(ErrorEntry)
    case Some(JObj(fields)) => Some(if "Response" in fields then fields["Response"] else UnknownEntry)
    case Some(_) => None
  }

  /** An entry is the part's "Response" value, "Unknown" when the decoded
      object lacks that key, or "ERROR" when the part is not valid JSON. */
  lemma PartEntryKinds(part: string, parse: string -> Option<Json>)
    requires PartEntry(part, parse).Some?
    ensures var e := PartEntry(part, parse).value;
      (parse(part).None? && e == ErrorEntry) ||
      (parse(part).Some? && parse(part).value.JObj? &&
        (("Response" in parse(part).value.fields && e == parse(part).value.fields["Response"]) ||
         ("Response" !in parse(part).value.fields && e == UnknownEntry)))
  {
  }

  /** All lines of all model texts, text after text. */
  function AllParts(texts: seq<string>): seq<string>
  {
    if texts == [] then [] else AllParts(texts[..|texts| - 1]) + Split(texts[|texts| - 1], '\n')
  }

  /** Total number of lines: one more than the newlines of each text. */
  function LineCount(texts: seq<string>): nat
  {
    if texts == [] then 0 else LineCount(texts[..|texts| - 1]) + Count(texts[|texts| - 1], '\n') + 1
  }

  /** The entries of a list of lines, in order; None when one of them raises. */
  function Entries(parts: seq<string>, parse: string -> Option<Json>): Option<seq<Json>>
  {
    if parts == [] then Some([])
    else
      var n := |parts| - 1;
      match Entries(parts[..n], parse)
      case None => None
      case Some(es) =>
        match PartEntry(parts[n], parse)
        case None => None
        case Some(e) => Some(es + [e])
  }

  /** The entries are there exactly when no line raises, and then the
      k-th entry is the k-th line's. */
  lemma {:induction false} EntriesPerPart(parts: seq<string>, parse: string -> Option<Json>)
    ensures Entries(parts, parse).Some? <==> forall k :: 0 <= k < |parts| ==> PartEntry(parts[k], parse).Some?
    ensures Entries(parts, parse).Some? ==> (|Entries(parts, parse).value| == |parts| &&
      forall k :: 0 <= k < |parts| ==> Entries(parts, parse).value[k] == PartEntry(parts[k], parse).value)
  {
    if parts != [] {
      var n := |parts| - 1;
      EntriesPerPart(parts[..n], parse);
      assert forall k :: 0 <= k < n ==> parts[..n][k] == parts[k];
    }
  }

  /** What determine_response returns for the answer model's texts. */
  function Responses(texts: seq<string>, parse: string -> Option<Json>): Option<seq<Json>>
  {
    Entries(AllParts(texts), parse)
  }

  lemma {:induction false} AllPartsAppend(a: seq<string>, b: seq<string>)
    ensures AllParts(a + b) == AllParts(a) + AllParts(b)
  {
    if b != [] {
      var n := |b| - 1;
      assert (a + b)[..|a + b| - 1] == a + b[..n];
      AllPartsAppend(a, b[..n]);
    } else {
      assert a + b == a;
    }
  }

  /** A text with k newlines contributes k + 1 lines. */
  lemma {:induction false} AllPartsLength(texts: seq<string>)
    ensures |AllParts(texts)| == LineCount(texts)
  {
    if texts != [] {
      AllPartsLength(texts[..|texts| - 1]);
      SplitLength(texts[|texts| - 1], '\n');
    }
  }

  /** determine_response emits one entry per line of each model text, in
      order: as many entries as lines, the k-th being the k-th line's. */
  lemma ResponsesPerLine(texts: seq<string>, parse: string -> Option<Json>)
    requires Responses(texts, parse).Some?
    ensures |AllParts(texts)| == |Responses(texts, parse).value| == LineCount(texts)
    ensures forall k :: 0 <= k < LineCount(texts) ==>
      PartEntry(AllParts(texts)[k], parse) == Some(Responses(texts, parse).value[k])
  {
    AllPartsLength(texts);
    EntriesPerPart(AllParts(texts), parse);
  }

  /** Once a line raises, every longer list of lines raises too. */
  lemma EntriesPrefixNone(a: seq<string>, b: seq<string>, parse: string -> Option<Json>)
    requires Entries(a, parse).None?
    ensures Entries(a + b, parse).None?
  {
    EntriesPerPart(a, parse);
    var k :| 0 <= k < |a| && PartEntry(a[k], parse).None?;
    assert (a + b)[k] == a[k];
    EntriesPerPart(a + b, parse);
  }

  /** Decoding one more line extends the entries by that line's entry. */
  lemma EntriesSnoc(a: seq<string>, p: string, parse: string -> Option<Json>)
    ensures Entries(a + [p], parse) ==
      if Entries(a, parse).Some? && PartEntry(p, parse).Some?
      then Some(Entries(a, parse).value + [PartEntry(p, parse).value])
      else None
  {
    assert (a + [p])[..|a|] == a;
  }

  /** The inner loop of determine_response: decode the lines of one text,
      appending to the entries of the lines already done. */
  method DecodeLines(done: seq<string>, parts: seq<string>, acc: seq<Json>, parse: string -> Option<Json>)
    returns (r: Option<seq<Json>>)
    requires Entries(done, parse) == Some(acc)
    ensures r == Entries(done + parts, parse)
  {
    var responses := acc;
    assert done + parts[..0] == done;
    for j := 0 to |parts|
      invariant Entries(done + parts[..j], parse) == Some(responses)
    {
      assert done + parts[..j + 1] == (done + parts[..j]) + [parts[j]];
      EntriesSnoc(done + parts[..j], parts[j], parse);
      var entry := PartEntry(parts[j], parse);
      if entry.None? {
        EntriesPrefixNone(done + parts[..j + 1], parts[j + 1..], parse);
        assert done + parts[..j + 1] + parts[j + 1..] == done + parts;
        return None;
      }
      responses := responses + [entry.value];
    }
    assert parts[..|parts|] == parts;
    r := Some(responses);
  }

  /** When the lines of the first i texts raise, so do those of all texts. */
  lemma LaterTextsKeepFailure(texts: seq<string>, i: nat, parse: string -> Option<Json>)
    requires i <= |texts| && Entries(AllParts(texts[..i]), parse).None?
    ensures Responses(texts, parse).None?
  {
    AllPartsAppend(texts[..i], texts[i..]);
    assert texts[..i] + texts[i..] == texts;
    EntriesPrefixNone(AllParts(texts[..i]), AllParts(texts[i..]), parse);
  }

  /** determine_response: split each model text on newlines and decode
      every line. */
  method DetermineResponse(texts: seq<string>, parse: string -> Option<Json>) returns (r: Option<seq<Json>>)
    ensures r == Responses(texts, parse)
  {
    var responses: seq<Json> := [];
    for i := 0 to |texts|
      invariant Entries(AllParts(texts[..i]), parse) == Some(responses)
    {
      assert texts[..i + 1][..i] == texts[..i];
      assert AllParts(texts[..i + 1]) == AllParts(texts[..i]) + Split(texts[i], '\n');
      var got := DecodeLines(AllParts(texts[..i]), Split(texts[i], '\n'), responses, parse);
      if got.None? {
        LaterTextsKeepFailure(texts, i + 1, parse);
        return None;
      }
      responses := got.value;
    }
    assert texts[..|texts|] == texts;
    r := Some(responses);
  }

  // ---------------------------------------------------------------------
  // test_context_relevant_any

  /** One relevance prompt per question, in question order. */
  function RelevancePrompts(questions: seq<Cell>, contexts: seq<seq<string>>): (prompts: seq<RelevancePrompt>)
    requires |contexts| == |questions|
    ensures |prompts| == |questions|
    ensures forall i :: 0 <= i < |questions| ==> prompts[i].question == questions[i] && prompts[i].contexts == contexts[i]
  {
    seq(|questions|, i requires 0 <= i < |questions| => RelevancePrompt(questions[i], contexts[i]))
  }

  /** A relevance reply decodes to its JSON value, or to "ERROR". */
  function ReplyValue(text: string, parse: string -> Option<Json>): (r: Json)
    ensures parse(text).Some? ==> r == parse(text).value
    ensures parse(text).None? ==> r == ErrorEntry
  {
    match parse(text)
    case None => ErrorEntry
    case Some(j) => j
  }

  /** test_context_relevant_any: ask the relevance model once per question
      and decode each reply. */
  method TestContextRelevantAny(questions: seq<Cell>, contexts: seq<seq<string>>,
                                judge: seq<RelevancePrompt> -> Option<seq<string>>,
                                parse: string -> Option<Json>)
    returns (r: Option<seq<Json>>)
    requires |contexts| == |questions|
    ensures judge(RelevancePrompts(questions, contexts)).None? ==> r.None?
    ensures judge(RelevancePrompts(questions, contexts)).Some? ==>
      var texts := judge(RelevancePrompts(questions, contexts)).value;
      r.Some? && |r.value| == |texts| &&
      forall k :: 0 <= k < |texts| ==> r.value[k] == ReplyValue(texts[k], parse)
  {
    var prompts := seq(|questions|, i requires 0 <= i < |questions| => RelevancePrompt(questions[i], contexts[i]));
    var response := judge(prompts);
    if response.None? {
      return None;
    }
    var texts := response.value;
    var responses: seq<Json> := [];
    for k := 0 to |texts|
      invariant |responses| == k
      invariant forall m :: 0 <= m < k ==> responses[m] == ReplyValue(texts[m], parse)
    {
      match parse(texts[k])
      case None => responses := responses + [ErrorEntry];
      case Some(j) => responses := responses + [j];
    }
    r := Some(responses);
  }

  // ---------------------------------------------------------------------
  // process_question

  /** `relevant[i]["Response"]` as a truth value, or None when the
      subscript raises (no such reply, not an object, no such key). */
  function RelevanceFlag(relevant: seq<Json>, i: nat): (r: Option<bool>)
    ensures r.Some? <==> i < |relevant| && relevant[i].JObj? && "Response" in relevant[i].fields
    ensures r.Some? ==> r.value == Truthy(relevant[i].fields["Response"])
  {
    if i < |relevant| && relevant[i].JObj? && "Response" in relevant[i].fields
    then Some(Truthy(relevant[i].fields["Response"]))
    else None
  }

  /** The index at which the context loop raises, or n when it does not. */
  function FirstFailure(relevant: seq<Json>, n: nat): (stop: nat)
    ensures stop <= n
    ensures forall i :: 0 <= i < stop ==> RelevanceFlag(relevant, i).Some?
    ensures stop < n ==> RelevanceFlag(relevant, stop).None?
  {
    if n == 0 then 0
    else
      var s := FirstFailure(relevant, n - 1);
      if s < n - 1 then s else if RelevanceFlag(relevant, n - 1).Some? then n else n - 1
  }

  /** The three passages joined as the question's standards context. */
  function JoinPassages(c: seq<string>): string
    requires |c| >= NumPassages
  {
    c[0] + "; " + c[1] + "; " + c[2]
  }

  /** Every context list holds the three passages the loop reads. */
  predicate ThreePassages(contexts: seq<seq<string>>)
  {
    forall i :: 0 <= i < |contexts| ==> |contexts[i]| >= NumPassages
  }

  /** The standards contexts after the loop: context i is the joined
      passages when the loop reached i and judged it relevant, else "". */
  function FilledContexts(contexts: seq<seq<string>>, relevant: seq<Json>): (r: seq<string>)
    requires ThreePassages(contexts)
    ensures |r| == |contexts|
  {
    var stop := FirstFailure(relevant, |contexts|);
    seq(|contexts|, i requires 0 <= i < |contexts| =>
      if i < stop && RelevanceFlag(relevant, i) == Some(true) then JoinPassages(contexts[i]) else "")
  }

  /** The loop over `standards_contexts`: overwrite context i with the
      joined passages where the reply says relevant; the first subscript
      that raises ends the loop, keeping what was already written. */
  method FillContexts(standardsContexts: array<string>, contexts: seq<seq<string>>, relevant: seq<Json>)
    returns (stop: nat)
    requires standardsContexts.Length == |contexts| && ThreePassages(contexts)
    requires forall i :: 0 <= i < standardsContexts.Length ==> standardsContexts[i] == ""
    modifies standardsContexts
    ensures stop == FirstFailure(relevant, |contexts|)
    ensures forall i :: 0 <= i < stop ==>
      standardsContexts[i] == if RelevanceFlag(relevant, i) == Some(true) then JoinPassages(contexts[i]) else ""
    ensures forall i :: stop <= i < standardsContexts.Length ==> standardsContexts[i] == ""
    ensures standardsContexts[..] == FilledContexts(contexts, relevant)
  {
    var n := |contexts|;
    stop := 0;
    while stop < n
      invariant stop <= n
      invariant forall i :: 0 <= i < stop ==> RelevanceFlag(relevant, i).Some?
      invariant forall i :: 0 <= i < stop ==>
        standardsContexts[i] == if RelevanceFlag(relevant, i) == Some(true) then JoinPassages(contexts[i]) else ""
      invariant forall i :: stop <= i < n ==> standardsContexts[i] == ""
    {
      if !(stop < |relevant| && relevant[stop].JObj? && "Response" in relevant[stop].fields) {
        break;
      }
      if Truthy(relevant[stop].fields["Response"]) {
        standardsContexts[stop] := contexts[stop][0] + "; " + contexts[stop][1] + "; " + contexts[stop][2];
      }
      stop := stop + 1;
    }
    FirstFailureUnique(relevant, n, stop);
  }

  /** The first failing index is the only index below which all verdicts
      exist and at which the verdict is missing (or the end). */
  lemma {:induction false} FirstFailureUnique(relevant: seq<Json>, n: nat, s: nat)
    requires s <= n
    requires forall i :: 0 <= i < s ==> RelevanceFlag(relevant, i).Some?
    requires s < n ==> RelevanceFlag(relevant, s).None?
    ensures s == FirstFailure(relevant, n)
  {
  }

  /** The standards contexts process_question ends up with: all "" when a
      query or the relevance call raises, else the filled contexts. */
  function StandardsContexts(questions: seq<Cell>, o: Oracles): (r: seq<string>)
    ensures |r| == |questions|
  {
    match AllContexts(questions, o.retrieve)
    case None => seq(|questions|, _ => "")
    case Some(contexts) =>
      match o.judgeRelevance(RelevancePrompts(questions, contexts))
      case None => seq(|questions|, _ => "")
      case Some(texts) =>
        FilledContexts(contexts, seq(|texts|, k requires 0 <= k < |texts| => ReplyValue(texts[k], o.parse)))
  }

  /** A context is either "" or the three retrieved passages of its own
      question joined, and the latter only when that question's relevance
      reply has a truthy "Response". After the first reply that cannot be
      read, every context is "". */
  lemma StandardsContextsShape(questions: seq<Cell>, o: Oracles, i: nat)
    requires i < |questions|
    ensures var r := StandardsContexts(questions, o)[i];
      r == "" ||
      (AllContexts(questions, o.retrieve).Some? &&
       o.judgeRelevance(RelevancePrompts(questions, AllContexts(questions, o.retrieve).value)).Some? &&
       var texts := o.judgeRelevance(RelevancePrompts(questions, AllContexts(questions, o.retrieve).value)).value;
       var relevant := seq(|texts|, k requires 0 <= k < |texts| => ReplyValue(texts[k], o.parse));
       i < FirstFailure(relevant, |questions|) &&
       RelevanceFlag(relevant, i) == Some(true) &&
       r == JoinPassages(GetStandardsContext(questions[i], NumPassages, o.retrieve).value))
  {
  }

  /** What one process_question call yields. */
  function ProcessQuestionSpec(questions: seq<Cell>, o: Oracles): (r: Outcome)
    ensures questions == [] ==> r.Raised?
    ensures r.Records? ==> (|r.records| == |questions| &&
      forall i :: 0 <= i < |questions| ==> r.records[i].question == questions[i])
  {
    if questions == [] then Raised
    else if !questions[0].Str? then NoRecords
    else
      var contexts := StandardsContexts(questions, o);
      match o.answer(questions)
      case None => Raised
      case Some(texts) =>
        match Responses(texts, o.parse)
        case None => Raised
        case Some(answers) =>
          if |answers| < |questions| then Raised
          else Records(seq(|questions|, i requires 0 <= i < |questions| => Record(questions[i], answers[i], contexts[i])))
  }

  /** process_question returns None exactly when the first question is not
      a string; otherwise, when it returns, record i holds question i, the
      i-th canonical answer and the i-th standards context. */
  lemma ProcessQuestionRecords(questions: seq<Cell>, o: Oracles)
    ensures ProcessQuestionSpec(questions, o).NoRecords? <==> |questions| > 0 && !questions[0].Str?
    ensures ProcessQuestionSpec(questions, o).Records? ==>
      var recs := ProcessQuestionSpec(questions, o).records;
      var answers := Responses(o.answer(questions).value, o.parse).value;
      |recs| == |questions| && |answers| >= |questions| &&
      forall i :: 0 <= i < |questions| ==>
        recs[i] == Record(questions[i], answers[i], StandardsContexts(questions, o)[i])
  {
  }

  /** The first half of process_question: start every standards context
      as "", then retrieve the passages, judge their relevance and fill
      the contexts; an exception on the way leaves what was written. */
  method ComputeStandardsContexts(questions: seq<Cell>, o: Oracles) returns (standardsContexts: array<string>)
    ensures fresh(standardsContexts)
    ensures standardsContexts[..] == StandardsContexts(questions, o)
  {
    standardsContexts := new string[|questions|](_ => "");
    var contexts := AllContexts(questions, o.retrieve);
    if contexts.Some? {
      var relevant := TestContextRelevantAny(questions, contexts.value, o.judgeRelevance, o.parse);
      if relevant.Some? {
        var texts := o.judgeRelevance(RelevancePrompts(questions, contexts.value)).value;
        assert relevant.value == seq(|texts|, k requires 0 <= k < |texts| => ReplyValue(texts[k], o.parse));
        var _ := FillContexts(standardsContexts, contexts.value, relevant.value);
      }
    }
  }

  /** process_question: the contexts step is best-effort (its exceptions
      are swallowed), the answer step is not. */
  method ProcessQuestion(questions: seq<Cell>, o: Oracles) returns (r: Outcome)
    ensures r == ProcessQuestionSpec(questions, o)
  {
    if |questions| == 0 {
      return Raised;  // questions.iloc[0]
    }
    if !questions[0].Str? {
      return NoRecords;
    }
    var n := |questions|;
    var standardsContexts := ComputeStandardsContexts(questions, o);
    var answerTexts := o.answer(questions);
    if answerTexts.None? {
      return Raised;
    }
    var answers := DetermineResponse(answerTexts.value, o.parse);
    if answers.None? || |answers.value| < n {
      return Raised;  // the exception, or ref_responses[i] out of range
    }
    r := Records(seq(n, i requires 0 <= i < n reads standardsContexts =>
      Record(questions[i], answers.value[i], standardsContexts[i])));
  }

  // ---------------------------------------------------------------------
  // create_ref_sig

  /** The batches from `start` on: [start, min(start + size, n)), then the
      next one, up to n. */
  function BatchesFrom(start: nat, n: nat, size: nat): (bs: seq<(nat, nat)>)
    requires size > 0
    ensures forall k :: 0 <= k < |bs| ==> start <= bs[k].0 < bs[k].1 <= n && bs[k].1 - bs[k].0 <= size
    decreases n - start
  {
    if start >= n then []
    else [(start, if start + size < n then start + size else n)] + BatchesFrom(start + size, n, size)
  }

  /** The k-th batch from `start` is [start + k * size, min(start + (k + 1) * size, n)),
      and the batches run up to n. */
  lemma {:induction false} BatchesShape(start: nat, n: nat, size: nat)
    requires size > 0
    ensures var bs := BatchesFrom(start, n, size);
      && (bs == [] <==> start >= n)
      && (bs != [] ==> bs[|bs| - 1].1 == n)
      && forall k :: 0 <= k < |bs| ==>
           bs[k].0 == start + k * size && bs[k].1 == (if bs[k].0 + size < n then bs[k].0 + size else n)
    decreases n - start
  {
    if start < n {
      BatchesShape(start + size, n, size);
      var bs, rest := BatchesFrom(start, n, size), BatchesFrom(start + size, n, size);
      assert bs == [bs[0]] + rest;
      forall k | 1 <= k < |bs|
        ensures bs[k].0 == start + k * size
      {
        assert bs[k] == rest[k - 1];
        assert (start + size) + (k - 1) * size == start + k * size;
      }
    }
  }

  /** The indices from s up to e. */
  function Range(s: nat, e: nat): (r: seq<nat>)
    requires s <= e
    ensures |r| == e - s
  {
    seq(e - s, i requires 0 <= i < e - s => s + i)
  }

  /** The indices covered by a list of batches, batch after batch. */
  function Covered(bs: seq<(nat, nat)>): seq<nat>
    requires forall k :: 0 <= k < |bs| ==> bs[k].0 <= bs[k].1
  {
    if bs == [] then [] else Range(bs[0].0, bs[0].1) + Covered(bs[1..])
  }

  /** The batches partition [start, n) in order: listing each batch's
      indices one batch after another lists start, start + 1, ..., n - 1. */
  lemma {:induction false} BatchesPartition(start: nat, n: nat, size: nat)
    requires size > 0 && start <= n
    ensures Covered(BatchesFrom(start, n, size)) == Range(start, n)
    decreases n - start
  {
    var bs := BatchesFrom(start, n, size);
    if start < n {
      var e := if start + size < n then start + size else n;
      BatchesPartition(e, n, size);
      if start + size < n {
        assert BatchesFrom(start + size, n, size) == bs[1..];
      } else {
        assert bs[1..] == [];
      }
      assert Range(start, e) + Range(e, n) == Range(start, n);
    }
  }

  /** One call of process_question made by the driver: the batch bounds
      and whether it was the first try (0) or the retry (1). */
  datatype Call = Call(start: nat, end: nat, attempt: nat)

  /** The oracles the driver's calls see: for the k-th batch, on a try. */
  type OracleSchedule = (nat, nat) -> Oracles

  /** A process_question call as the driver sees it: a batch of
      questions, the batch number and the try (0, or 1 for the retry). */
  type Step = (seq<Cell>, nat, nat) -> Outcome

  /** `step` answers every call as process_question does with the
      scheduled oracles. */
  ghost predicate Resolves(step: Step, o: OracleSchedule)
  {
    forall qs: seq<Cell>, k: nat, t: nat {:trigger ProcessQuestionSpec(qs, o(k, t))} ::
      step(qs, k, t) == ProcessQuestionSpec(qs, o(k, t))
  }

  /** The driver's step when process_question meets the scheduled oracles,
      known by what it answers for each call. */
  ghost function Resolver(o: OracleSchedule): (r: Step)
    ensures Resolves(r, o)
  {
    var direct: Step := (qs: seq<Cell>, k: nat, t: nat) => ProcessQuestionSpec(qs, o(k, t));
    assert Resolves(direct, o);
    var step: Step :| Resolves(step, o);
    step
  }

  /** What a batch contributes given its two possible tries: the first
      try's records, or when it raises the retry's, or nothing. */
  function Pick(first: Outcome, second: Outcome): (r: seq<Record>)
    ensures first.Records? ==> r == first.records
    ensures first.NoRecords? ==> r == []
    ensures first.Raised? ==> r == if second.Records? then second.records else []
  {
    match first
    case Records(rs) => rs
    case NoRecords => []
    case Raised => if second.Records? then second.records else []
  }

  /** What the k-th batch [s, e) contributes. */
  function BatchRecords(questions: seq<Cell>, s: nat, e: nat, k: nat, step: Step): seq<Record>
    requires s <= e <= |questions|
  {
    Pick(step(questions[s..e], k, 0), step(questions[s..e], k, 1))
  }

  /** The calls made for the k-th batch: the retry only after the first
      try raised. */
  function BatchCalls(questions: seq<Cell>, s: nat, e: nat, k: nat, step: Step): seq<Call>
    requires s <= e <= |questions|
  {
    [Call(s, e, 0)] + if step(questions[s..e], k, 0).Raised? then [Call(s, e, 1)] else []
  }

  /** The records of the batches from `start` on, the first of them being
      batch number k. */
  function RefSigFrom(questions: seq<Cell>, start: nat, size: nat, k: nat, step: Step): seq<Record>
    requires size > 0
    decreases |questions| - start
  {
    if start >= |questions| then []
    else
      var e := if start + size < |questions| then start + size else |questions|;
      BatchRecords(questions, start, e, k, step) + RefSigFrom(questions, start + size, size, k + 1, step)
  }

  /** The calls made for the batches from `start` on. */
  function CallsFrom(questions: seq<Cell>, start: nat, size: nat, k: nat, step: Step): seq<Call>
    requires size > 0
    decreases |questions| - start
  {
    if start >= |questions| then []
    else
      var e := if start + size < |questions| then start + size else |questions|;
      BatchCalls(questions, start, e, k, step) + CallsFrom(questions, start + size, size, k + 1, step)
  }

  /** The records of a list of batches, the first being batch number k. */
  function BatchListRecords(questions: seq<Cell>, bs: seq<(nat, nat)>, k: nat, step: Step): seq<Record>
    requires forall j :: 0 <= j < |bs| ==> bs[j].0 <= bs[j].1 <= |questions|
  {
    if bs == [] then []
    else BatchRecords(questions, bs[0].0, bs[0].1, k, step) + BatchListRecords(questions, bs[1..], k + 1, step)
  }

  /** The calls made for a list of batches, the first being batch number k. */
  function BatchListCalls(questions: seq<Cell>, bs: seq<(nat, nat)>, k: nat, step: Step): seq<Call>
    requires forall j :: 0 <= j < |bs| ==> bs[j].0 <= bs[j].1 <= |questions|
  {
    if bs == [] then []
    else BatchCalls(questions, bs[0].0, bs[0].1, k, step) + BatchListCalls(questions, bs[1..], k + 1, step)
  }

  /** The driver's output is the in-order concatenation of what the
      batches [inc, min(inc + batch_size, n)) contribute, and its calls
      are those of the batches, batch after batch. */
  lemma {:induction false} RefSigIsBatches(questions: seq<Cell>, start: nat, size: nat, k: nat, step: Step)
    requires size > 0
    ensures RefSigFrom(questions, start, size, k, step)
         == BatchListRecords(questions, BatchesFrom(start, |questions|, size), k, step)
    decreases |questions| - start
  {
    if start < |questions| {
      RefSigIsBatches(questions, start + size, size, k + 1, step);
      assert BatchesFrom(start, |questions|, size)[1..] == BatchesFrom(start + size, |questions|, size);
    }
  }

  /** The same for the calls: those of the batches, batch after batch. */
  lemma {:induction false} CallsAreBatches(questions: seq<Cell>, start: nat, size: nat, k: nat, step: Step)
    requires size > 0
    ensures CallsFrom(questions, start, size, k, step)
         == BatchListCalls(questions, BatchesFrom(start, |questions|, size), k, step)
    decreases |questions| - start
  {
    if start < |questions| {
      CallsAreBatches(questions, start + size, size, k + 1, step);
      assert BatchesFrom(start, |questions|, size)[1..] == BatchesFrom(start + size, |questions|, size);
    }
  }

  /** Every call is a first try or a retry of one of the batches, and
      there are between one and two calls per batch. */
  lemma {:induction false} CallsFollowBatches(questions: seq<Cell>, start: nat, size: nat, k: nat, step: Step)
    requires size > 0
    ensures var bs := BatchesFrom(start, |questions|, size);
      var calls := CallsFrom(questions, start, size, k, step);
      |bs| <= |calls| <= 2 * |bs| &&
      forall c :: c in calls ==> c.attempt <= 1 && (c.start, c.end) in bs
    decreases |questions| - start
  {
    if start < |questions| {
      CallsFollowBatches(questions, start + size, size, k + 1, step);
    }
  }

  /** In the calls made for a list of batches, every batch has its first try. */
  lemma {:induction false} FirstTriesOfList(questions: seq<Cell>, bs: seq<(nat, nat)>, k: nat, step: Step)
    requires forall j :: 0 <= j < |bs| ==> bs[j].0 <= bs[j].1 <= |questions|
    ensures forall j :: 0 <= j < |bs| ==> Call(bs[j].0, bs[j].1, 0) in BatchListCalls(questions, bs, k, step)
  {
    if bs != [] {
      FirstTriesOfList(questions, bs[1..], k + 1, step);
      var head := BatchCalls(questions, bs[0].0, bs[0].1, k, step);
      var rest := BatchListCalls(questions, bs[1..], k + 1, step);
      forall j | 0 <= j < |bs|
        ensures Call(bs[j].0, bs[j].1, 0) in head + rest
      {
        if j == 0 {
          assert (head + rest)[0] == Call(bs[0].0, bs[0].1, 0);
        } else {
          assert bs[j] == bs[1..][j - 1];
        }
      }
    }
  }

  /** Every batch of the driver gets its first try. */
  lemma FirstTriesMade(questions: seq<Cell>, start: nat, size: nat, k: nat, step: Step)
    requires size > 0
    ensures var bs := BatchesFrom(start, |questions|, size);
      forall j :: 0 <= j < |bs| ==> Call(bs[j].0, bs[j].1, 0) in CallsFrom(questions, start, size, k, step)
  {
    CallsAreBatches(questions, start, size, k, step);
    FirstTriesOfList(questions, BatchesFrom(start, |questions|, size), k, step);
  }

  /** No element of `s` occurs twice. */
  predicate Distinct<T(==)>(s: seq<T>)
  {
    forall i, j :: 0 <= i < j < |s| ==> s[i] != s[j]
  }

  /** Two lists without repeats and without common elements make a list
      without repeats. */
  lemma DistinctAppend<T>(a: seq<T>, b: seq<T>)
    requires Distinct(a) && Distinct(b)
    requires forall x, y :: x in a && y in b ==> x != y
    ensures Distinct(a + b)
  {
    forall i, j | 0 <= i < j < |a + b|
      ensures (a + b)[i] != (a + b)[j]
    {
      if j >= |a| {
        assert (a + b)[j] == b[j - |a|];
        if i >= |a| {
          assert (a + b)[i] == b[i - |a|];
        } else {
          assert (a + b)[i] == a[i];
          assert a[i] in a && b[j - |a|] in b;
        }
      }
    }
  }

  /** No call is made twice: with every call being a first try or a retry
      of one of the batches, each batch is attempted at most twice. */
  lemma {:induction false} CallsDistinct(questions: seq<Cell>, start: nat, size: nat, k: nat, step: Step)
    requires size > 0
    ensures var calls := CallsFrom(questions, start, size, k, step);
      (forall c :: c in calls ==> c.start >= start) && Distinct(calls)
    decreases |questions| - start
  {
    if start < |questions| {
      CallsDistinct(questions, start + size, size, k + 1, step);
      var e := if start + size < |questions| then start + size else |questions|;
      var head, rest := BatchCalls(questions, start, e, k, step), CallsFrom(questions, start + size, size, k + 1, step);
      assert CallsFrom(questions, start, size, k, step) == head + rest;
      assert forall c :: c in head ==> c.start == start;
      DistinctAppend(head, rest);
    }
  }

  /** The body of the driver's loop for the k-th batch [s, e): try it,
      and try once more if that raised. */
  method RunBatch(questions: seq<Cell>, s: nat, e: nat, k: nat, o: OracleSchedule)
    returns (got: seq<Record>, made: seq<Call>)
    requires s <= e <= |questions|
    ensures got == BatchRecords(questions, s, e, k, Resolver(o))
    ensures made == BatchCalls(questions, s, e, k, Resolver(o))
  {
    var batch := questions[s..e];
    var result := ProcessQuestion(batch, o(k, 0));
    made := [Call(s, e, 0)];
    if result.Raised? {
      result := ProcessQuestion(batch, o(k, 1));
      made := made + [Call(s, e, 1)];
    }
    got := if result.Records? then result.records else [];
  }

  /** One turn of the driver's loop: when the output so far followed by
      the batches from `start` on is the whole output, so is the output
      extended by the batch at `start` followed by the later batches. */
  lemma DriverStep(questions: seq<Cell>, start: nat, size: nat, k: nat, step: Step,
                   records: seq<Record>, calls: seq<Call>, got: seq<Record>, made: seq<Call>,
                   allRecords: seq<Record>, allCalls: seq<Call>)
    requires size > 0 && start < |questions|
    requires records + RefSigFrom(questions, start, size, k, step) == allRecords
    requires calls + CallsFrom(questions, start, size, k, step) == allCalls
    requires var e := if start + size < |questions| then start + size else |questions|;
      got == BatchRecords(questions, start, e, k, step) && made == BatchCalls(questions, start, e, k, step)
    ensures (records + got) + RefSigFrom(questions, start + size, size, k + 1, step) == allRecords
    ensures (calls + made) + CallsFrom(questions, start + size, size, k + 1, step) == allCalls
  {
  }

  /** One turn of the driver's loop: run the batch at `increment` and
      append what it contributes and the calls it made. */
  method DriverTurn(questions: seq<Cell>, increment: nat, batchSize: nat, k: nat, o: OracleSchedule,
                    records: seq<Record>, calls: seq<Call>, ghost allRecords: seq<Record>, ghost allCalls: seq<Call>)
    returns (records': seq<Record>, calls': seq<Call>)
    requires batchSize > 0 && increment < |questions|
    requires records + RefSigFrom(questions, increment, batchSize, k, Resolver(o)) == allRecords
    requires calls + CallsFrom(questions, increment, batchSize, k, Resolver(o)) == allCalls
    ensures records' + RefSigFrom(questions, increment + batchSize, batchSize, k + 1, Resolver(o)) == allRecords
    ensures calls' + CallsFrom(questions, increment + batchSize, batchSize, k + 1, Resolver(o)) == allCalls
  {
    var n := |questions|;
    var end := if increment + batchSize < n then increment + batchSize else n;
    var got, made := RunBatch(questions, increment, end, k, o);
    DriverStep(questions, increment, batchSize, k, Resolver(o), records, calls, got, made, allRecords, allCalls);
    records', calls' := records + got, calls + made;
  }

  /** create_ref_sig: run the batches in order, retry a batch that raised
      once, give up on it after a second failure, and concatenate the
      records. `calls` lists the process_question calls made. */
  method CreateRefSig(questions: seq<Cell>, batchSize: nat, o: OracleSchedule)
    returns (records: seq<Record>, calls: seq<Call>)
    requires batchSize > 0
    ensures records == RefSigFrom(questions, 0, batchSize, 0, Resolver(o))
    ensures calls == CallsFrom(questions, 0, batchSize, 0, Resolver(o))
  {
    var n := |questions|;
    records, calls := [], [];
    var increment, k := 0, 0;
    ghost var allRecords, allCalls := RefSigFrom(questions, 0, batchSize, 0, Resolver(o)), CallsFrom(questions, 0, batchSize, 0, Resolver(o));
    assert records + allRecords == allRecords && calls + allCalls == allCalls;
    while increment < n
      invariant records + RefSigFrom(questions, increment, batchSize, k, Resolver(o)) == allRecords
      invariant calls + CallsFrom(questions, increment, batchSize, k, Resolver(o)) == allCalls
      decreases n - increment
    {
      records, calls := DriverTurn(questions, increment, batchSize, k, o, records, calls, allRecords, allCalls);
      increment, k := increment + batchSize, k + 1;
    }
  }
}
