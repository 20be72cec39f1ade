# Third-party risk assessment pipeline: a verified model of its bookkeeping

The pipeline reviews a vendor's security questionnaire (a filled-out SIG, the
Standardized Information Gathering form) against a "golden" reference SIG. It
has three programs:

- `processStandards.py` cuts a security-standards document into headed chunks
  and prepares them for a similarity index.
- `create_reference_SIG.py` builds the reference SIG. It asks a language model
  for the answer the bank expects to each question. It also retrieves the
  three nearest standards passages and keeps them when a second model judges
  them relevant. The questions run in batches, and a batch that raises is
  retried once.
- `create_assessor_report.py` reads the vendor's answers and looks every
  question up in the reference SIG, adding it when missing. It then
  classifies each answer as matching, an *issue* or a *gap*, with a
  recommendation text.

Every language-model call, the vector store, `json.loads` and the reference
resolver are function-typed parameters (oracles). Most raised exceptions are
an explicit `None`, `Raised` or `ok == false` outcome. The exceptions are the
evidence classifier and the reference resolver of the assessor report, which
are modelled as never raising (see "## Left out"). What remains is modelled
and proved: the decision table, the text formats, the parsing fallbacks, the
first-match append-only reference table, the batch driver, and the
chunk and id bookkeeping.

Files:

- `common.dfy`: two modules.
  - `Values` holds pandas cells (`Str`, `NaN`, `Other`) and JSON values with
    Python truthiness and `str()`.
  - `Text` holds Python `in`, `split('\n')`, `join` and `str(n)` on strings,
    with their laws.
- `standards.dfy` (`Standards`): `processStandards.py`.
- `reference_sig.dfy` (`ReferenceSig`): `create_reference_SIG.py`.
- `assessor_report.dfy` (`AssessorReport`): `create_assessor_report.py`.

Loops in the source are methods with loop invariants, each proved against a
specification function. Lists that are overwritten in place are arrays
(`FillContexts`) or sequences updated by index (`CompareToReference`). The
reference SIG that grows by concatenation is the class `GoldenSig`.

## Model

| member | source | states |
|---|---|---|
| Standards.ToChunk | assets/watsonxai-solution/processStandards.py:70 | a kept chunk's record takes filename from `meta.origin.filename`, content from `text`, heading from `meta.headings[0]` |
| Standards.KeptChunks | assets/watsonxai-solution/processStandards.py:67-70 | the filter never yields more records than there are chunks (its content is stated by the next row) |
| Standards.KeptIndices | assets/watsonxai-solution/processStandards.py:68-69 | the positions the filter keeps are increasing and are exactly those whose first heading is not "Version 5.0" |
| Standards.KeptChunksAreKeptIndices | assets/watsonxai-solution/processStandards.py:67-70 | record k of the filter is the chunk at the k-th kept position: exactly the unmarked chunks, in their original order |
| Standards.KeptChunksAppend | assets/watsonxai-solution/processStandards.py:67-70 | filtering a concatenation filters each part and concatenates: the filter preserves order |
| Standards.ChunkStandards | assets/watsonxai-solution/processStandards.py:67-70 | the loop raises (None) exactly when some chunk has no heading; otherwise it returns the kept records in order |
| Standards.Ids | assets/watsonxai-solution/processStandards.py:38 | one id per text |
| Standards.IdsDistinct | assets/watsonxai-solution/processStandards.py:38 | the ids `id0`..`id{n-1}` are pairwise distinct |
| Standards.IdsPrefix | assets/watsonxai-solution/processStandards.py:38 | an id depends only on its position: the ids of a shorter run are a prefix of a longer run's |
| Standards.CreateStandardsDb | assets/watsonxai-solution/processStandards.py:33-38 | texts, metadata and ids have the chunks' length and are aligned with them; metadata i is (filename i, heading i); the ids are the positional ids |
| Text.ContainsIff | assets/watsonxai-solution/create_assessor_report.py:314 | the left-to-right scan that models Python `in` holds exactly when some window of the text equals the marker |
| Text.SplitLength | assets/watsonxai-solution/create_reference_SIG.py:90 | a text with k newlines splits into k + 1 parts |
| Text.SplitPiecesClean | assets/watsonxai-solution/create_reference_SIG.py:90 | no part of a split contains the separator |
| Text.JoinSplit | assets/watsonxai-solution/create_reference_SIG.py:90 | joining the parts with the separator gives the text back |
| Text.SplitJoin | assets/watsonxai-solution/create_reference_SIG.py:90 | splitting a join of separator-free parts gives the parts back |
| Text.NatToString | assets/watsonxai-solution/processStandards.py:38 | `str(i)` is a non-empty run of decimal digits |
| Text.NatToStringInjective | assets/watsonxai-solution/processStandards.py:38 | different numbers are written differently |
| Values.PyStr | assets/watsonxai-solution/create_assessor_report.py:326 | `str()` of a decoded JSON string is the string itself |
| ReferenceSig.GetStandardsContext | assets/watsonxai-solution/create_reference_SIG.py:100-106 | succeeds exactly when the query returns at least `num_results` hits; then exactly `num_results` strings "Heading: h, Content: d", in rank order |
| ReferenceSig.AllContexts | assets/watsonxai-solution/create_reference_SIG.py:171 | one context list per question, in question order; None as soon as one query raises |
| ReferenceSig.PartEntry | assets/watsonxai-solution/create_reference_SIG.py:91-96 | a part that is not JSON gives "ERROR"; the part raises (None) exactly when it decodes to something other than an object |
| ReferenceSig.PartEntryKinds | assets/watsonxai-solution/create_reference_SIG.py:91-96 | each entry is the part's "Response" value, "Unknown" when the decoded object lacks that key, or "ERROR" when the part is not valid JSON |
| ReferenceSig.EntriesPerPart | assets/watsonxai-solution/create_reference_SIG.py:90-96 | the part loop succeeds exactly when no part raises, and then entry k is the entry of part k |
| ReferenceSig.AllPartsAppend | assets/watsonxai-solution/create_reference_SIG.py:89-90 | the parts of more texts are the earlier parts followed by the new ones |
| ReferenceSig.AllPartsLength | assets/watsonxai-solution/create_reference_SIG.py:89-90 | there are as many parts as the texts' newlines plus one per text |
| ReferenceSig.ResponsesPerLine | assets/watsonxai-solution/create_reference_SIG.py:88-96 | when determine_response returns, it has one entry per newline-separated part of each text, in order, and entry k is part k's entry |
| ReferenceSig.EntriesPrefixNone | assets/watsonxai-solution/create_reference_SIG.py:91-93 | once a part raises, no later part can undo it |
| ReferenceSig.LaterTextsKeepFailure | assets/watsonxai-solution/create_reference_SIG.py:89-96 | a part that raises in an early text makes the whole call raise |
| ReferenceSig.DecodeLines | assets/watsonxai-solution/create_reference_SIG.py:90-96 | the inner loop extends the entries of the parts done so far by those of the text's parts |
| ReferenceSig.DetermineResponse | assets/watsonxai-solution/create_reference_SIG.py:88-98 | the nested loop computes exactly the per-part entries of all texts, or raises when a part does |
| ReferenceSig.RelevancePrompts | assets/watsonxai-solution/create_reference_SIG.py:149 | exactly one prompt per question, in question order, pairing question i with its contexts i |
| ReferenceSig.ReplyValue | assets/watsonxai-solution/create_reference_SIG.py:154-159 | a reply that decodes gives its decoded value; one that does not gives "ERROR" |
| ReferenceSig.TestContextRelevantAny | assets/watsonxai-solution/create_reference_SIG.py:149-162 | one decoded reply per model text, in order: the parsed value, or "ERROR" when it is not JSON; None when the model call raises |
| ReferenceSig.RelevanceFlag | assets/watsonxai-solution/create_reference_SIG.py:174 | `relevant[i]["Response"]` exists exactly when reply i exists, is an object and has the key; its value is then the key's truthiness |
| ReferenceSig.FirstFailure | assets/watsonxai-solution/create_reference_SIG.py:173-176 | the index where the context loop raises: every earlier reply has a readable "Response", and the one at that index does not |
| ReferenceSig.FilledContexts | assets/watsonxai-solution/create_reference_SIG.py:169-177 | one standards context per question |
| ReferenceSig.FillContexts | assets/watsonxai-solution/create_reference_SIG.py:169-177 | contexts before the first failure are the three passages joined with "; " where the reply is truthy and "" otherwise; every later context stays "" |
| ReferenceSig.StandardsContexts | assets/watsonxai-solution/create_reference_SIG.py:169-177 | one context per question, even when the retrieval or relevance step raises |
| ReferenceSig.StandardsContextsShape | assets/watsonxai-solution/create_reference_SIG.py:169-177 | a context is "" or its own question's three passages joined, and the latter only before the first unreadable reply and when its reply is truthy |
| ReferenceSig.ComputeStandardsContexts | assets/watsonxai-solution/create_reference_SIG.py:169-177 | the array of contexts, filled in place and left as it is when a step raises, holds exactly the specified contexts |
| ReferenceSig.ProcessQuestionSpec | assets/watsonxai-solution/create_reference_SIG.py:166-182 | an empty batch raises; records, when returned, are one per question and carry that question |
| ReferenceSig.ProcessQuestionRecords | assets/watsonxai-solution/create_reference_SIG.py:166-182 | None exactly when the first question is not a string; otherwise record i is (question i, answer i, standards context i) |
| ReferenceSig.ProcessQuestion | assets/watsonxai-solution/create_reference_SIG.py:166-182 | the method, with its array of contexts and swallowed exceptions, yields the specified outcome |
| ReferenceSig.BatchesFrom | assets/watsonxai-solution/create_reference_SIG.py:189-190 | each batch is non-empty, lies inside `[start, n)` and is at most `batch_size` long |
| ReferenceSig.BatchesShape | assets/watsonxai-solution/create_reference_SIG.py:189-190 | batch k is exactly `[start + k * batch_size, min(start + k * batch_size + batch_size, n))`; there are none exactly when `start >= n`, and the last ends at n |
| ReferenceSig.Range | assets/watsonxai-solution/create_reference_SIG.py:189 | the indices `s..e-1` |
| ReferenceSig.BatchesPartition | assets/watsonxai-solution/create_reference_SIG.py:189-190 | the batches partition `[0, n)` in order: their indices, batch after batch, are exactly 0..n-1 |
| ReferenceSig.Resolver | assets/watsonxai-solution/create_reference_SIG.py:192 | the driver's step answers every call as process_question does with that call's oracles |
| ReferenceSig.Pick | assets/watsonxai-solution/create_reference_SIG.py:191-202 | a batch contributes its first try's records; nothing when that returns None; after a raise, the retry's records or nothing |
| ReferenceSig.RefSigIsBatches | assets/watsonxai-solution/create_reference_SIG.py:189-202 | the driver's records are the records of the batches of `BatchesFrom`, batch after batch |
| ReferenceSig.CallsAreBatches | assets/watsonxai-solution/create_reference_SIG.py:189-202 | the driver's calls are the calls of the batches of `BatchesFrom`, batch after batch |
| ReferenceSig.CallsFollowBatches | assets/watsonxai-solution/create_reference_SIG.py:189-202 | every call is a first try or a retry of one of the batches; there are between one and two calls per batch |
| ReferenceSig.FirstTriesOfList | assets/watsonxai-solution/create_reference_SIG.py:191-192 | for any list of batches, every batch gets its first try |
| ReferenceSig.FirstTriesMade | assets/watsonxai-solution/create_reference_SIG.py:191-192 | every batch of the driver gets its first try |
| ReferenceSig.CallsDistinct | assets/watsonxai-solution/create_reference_SIG.py:189-202 | no call is made twice, so each batch is tried at most once per attempt, at most twice in all |
| ReferenceSig.RunBatch | assets/watsonxai-solution/create_reference_SIG.py:191-202 | a batch contributes its first try's records, or after a raise its retry's, or nothing; the retry is made only after a raise |
| ReferenceSig.DriverStep | assets/watsonxai-solution/create_reference_SIG.py:189-202 | the output so far, then the batch at `inc`, then the later batches, is the whole output |
| ReferenceSig.DriverTurn | assets/watsonxai-solution/create_reference_SIG.py:189-202 | one pass of the driver's loop keeps the invariant: output so far plus the batches from `inc + batch_size` on is the whole output |
| ReferenceSig.CreateRefSig | assets/watsonxai-solution/create_reference_SIG.py:184-208 | the driver's records are the in-order concatenation of the batches' contributions, and its calls are the specified tries and retries |
| AssessorReport.NormaliseResponse | assets/watsonxai-solution/create_assessor_report.py:82 | "Yes" and "No" are kept; every other cell, missing ones included, becomes "N/A" |
| AssessorReport.ToSigRow | assets/watsonxai-solution/create_assessor_report.py:79-91 | a frame row keeps the question and additional information, has a blank category, and its response is "Yes", "No" or "N/A", the first two only when the input said so |
| AssessorReport.SigFrame | assets/watsonxai-solution/create_assessor_report.py:77-94 | n input rows give n frame rows |
| AssessorReport.SigFrameReversed | assets/watsonxai-solution/create_assessor_report.py:77-94 | the row at index k is input row n-1-k with question number n-k: the order is reversed |
| AssessorReport.SigFramePush | assets/watsonxai-solution/create_assessor_report.py:87-94 | each row read goes on top of the rows read before it |
| AssessorReport.ReadSigCsv | assets/watsonxai-solution/create_assessor_report.py:69-96 | the loop builds the reversed, normalised frame |
| AssessorReport.Shown | assets/watsonxai-solution/create_assessor_report.py:232-233 | an empty issue field is shown as "n/a"; any other is shown as is |
| AssessorReport.IssueBlock | assets/watsonxai-solution/create_assessor_report.py:231-234 | the block opens with its "Issue Recommendation" heading |
| AssessorReport.FormatRec | assets/watsonxai-solution/create_assessor_report.py:230-238 | the known-issue block always ends the text. The text equals the block exactly when no explanation is given, and starts with "Explanation: " exactly when one is. Then the explanation follows the label and a blank line ("\n\n") separates it from the block |
| AssessorReport.FirstMatch | assets/watsonxai-solution/create_assessor_report.py:265 | the position of the first table row whose question equals the text exactly, or None when no row does |
| AssessorReport.FirstMatchStable | assets/watsonxai-solution/create_assessor_report.py:262 | appending a row never changes the row a question already finds |
| AssessorReport.FirstMatchAppended | assets/watsonxai-solution/create_assessor_report.py:260-265 | a question that found nothing finds the row appended for it |
| AssessorReport.Lookup | assets/watsonxai-solution/create_assessor_report.py:257 | a row found for a question is a row of the table holding that question |
| AssessorReport.LookupMisses | assets/watsonxai-solution/create_assessor_report.py:257-259 | a lookup misses exactly when no row of the table holds the question |
| AssessorReport.Resolved | assets/watsonxai-solution/create_assessor_report.py:256-265 | the row a question is compared with holds the question: the row found, or on a miss the row built from the resolver's answer and context |
| AssessorReport.Grow | assets/watsonxai-solution/create_assessor_report.py:256-265 | lookup-or-append only grows the table, by at most one row, and afterwards the question finds its resolved row |
| AssessorReport.GrowKeepsFinds | assets/watsonxai-solution/create_assessor_report.py:262 | a question that was found is still found, as the same row, after another question grows the table |
| AssessorReport.ResolvedStable | assets/watsonxai-solution/create_assessor_report.py:256-265 | growing the table for one question never changes the row any question resolves to |
| AssessorReport.GoldenSig.LookupOrAppend | assets/watsonxai-solution/create_assessor_report.py:256-265 | a hit leaves the table unchanged and returns the first match; a miss appends the row resolved for the question; the new table is `Grow` of the old and the returned row is the resolved one; no question changes its answer |
| AssessorReport.TextPrefix | assets/watsonxai-solution/create_assessor_report.py:254-263 | the rows compared before the first question that is not a string |
| AssessorReport.TableAfter | assets/watsonxai-solution/create_assessor_report.py:254-265 | comparing a run of rows only ever appends to the table |
| AssessorReport.ResolvedAfter | assets/watsonxai-solution/create_assessor_report.py:254-265 | comparing rows never changes the row any question resolves to |
| AssessorReport.FoundLast | assets/watsonxai-solution/create_assessor_report.py:254-265 | after a run of rows, its last question finds the row it resolved to |
| AssessorReport.LookupPrefix | assets/watsonxai-solution/create_assessor_report.py:257-265 | a hit stays the same hit in any table that extends the table |
| AssessorReport.TableAfterPrefix | assets/watsonxai-solution/create_assessor_report.py:254-265 | the table after some of the rows is a prefix of the table after all of them |
| AssessorReport.FoundAfter | assets/watsonxai-solution/create_assessor_report.py:254-265 | after the run, question k finds the row it resolved to against the original table |
| AssessorReport.TableAfterFinds | assets/watsonxai-solution/create_assessor_report.py:254-265 | the same for every question of the run |
| AssessorReport.AddedRow | assets/watsonxai-solution/create_assessor_report.py:260-262 | a row beyond the original table was added for some question of the run that the original table lacked, and is that question's resolved row |
| AssessorReport.TableAfterAdds | assets/watsonxai-solution/create_assessor_report.py:260-262 | the table grows only by such rows |
| AssessorReport.TableAfterMemoised | assets/watsonxai-solution/create_assessor_report.py:256-265 | lookups are memoised: no appended row repeats the question of an earlier row, so the table gains one row per distinct missing question |
| AssessorReport.ReferencesAsWritten | assets/watsonxai-solution/create_assessor_report.py:256-263 | as written, the references exist exactly when every question is a string the table already holds, and are then the rows found |
| AssessorReport.AsWrittenMissRaises | assets/watsonxai-solution/create_assessor_report.py:259-263 | as written, a one-question frame against an empty table raises, though the intended comparison finds the row resolved for the question |
| AssessorReport.CompareRow | assets/watsonxai-solution/create_assessor_report.py:255-268 | one row's comparison grows the table by lookup-or-append; the reference row is the one resolved for the question, and the recorded values are those of that row |
| AssessorReport.CompareTurn | assets/watsonxai-solution/create_assessor_report.py:254-269 | one pass of the comparison loop extends the table by that row's question and writes only that row's slots, with the values of the row it resolved to |
| AssessorReport.CompareToReference | assets/watsonxai-solution/create_assessor_report.py:244-271 | succeeds exactly when every question is a string; the table is the original grown question by question up to the first non-string one; lists of length n+1. On success each question finds its resolved row, `answer_same` compares with that row's answer, `ai_provided` says whether evidence is text, `ai_support` is the classifier's output or stays "", and the context is that row's |
| AssessorReport.RecommendationInputs | assets/watsonxai-solution/create_assessor_report.py:155-157 | each input that is not a string is replaced by its fixed notice |
| AssessorReport.ParseRecommendation | assets/watsonxai-solution/create_assessor_report.py:218-223 | output that is not JSON gives ("Failed", "LLM generation failed"); decoded JSON that is not an object with both keys raises; otherwise the pair is the object's "status" and "explanation and follow-up questions" |
| AssessorReport.GenerateRecommendation | assets/watsonxai-solution/create_assessor_report.py:155-157 | generate_recommendation raises when its model call raises; otherwise its result is that of parsing the model's output on the defaulted inputs |
| AssessorReport.KnownIssue | assets/watsonxai-solution/create_assessor_report.py:306-310 | the issue number and recommendation are the reference row's when its Issue Description is non-empty text, and "" otherwise |
| AssessorReport.ExplanationArg | assets/watsonxai-solution/create_assessor_report.py:236 | a JSON null explanation counts as no explanation; a JSON string is passed on as itself |
| AssessorReport.Classify | assets/watsonxai-solution/create_assessor_report.py:300-330 | the full decision table; Issue and Gap are never both "Yes" (see the rows below) |
| AssessorReport.MatchIgnoresEverythingElse | assets/watsonxai-solution/create_assessor_report.py:301-304 | a matching answer gives ("No", "No", "") whatever else the row holds |
| AssessorReport.OnlyTheMarkerMatters | assets/watsonxai-solution/create_assessor_report.py:314-315 | the evidence classifier's output matters only through whether it contains "contradicts" |
| AssessorReport.RowVerdict | assets/watsonxai-solution/create_assessor_report.py:300-330 | a row's verdict never sets both flags; a matching answer gives ("No", "No", ""); the row raises exactly when the answer differs, evidence is given and generate_recommendation raises |
| AssessorReport.ClassifyRows | assets/watsonxai-solution/create_assessor_report.py:300-330 | the loop yields, row by row, the decision table's verdict; it raises exactly when some row's recommendation call raises |
| AssessorReport.CreateAssessorReport | assets/watsonxai-solution/create_assessor_report.py:274-336 | a report is produced exactly when every question is a string and no row's recommendation call raises; the table is the original grown by the compared questions; the report has one row per questionnaire row in frame order, each carrying the row, the context of the row its question resolved to, and the verdict computed from that row |

The contract of `AssessorReport.Classify`, branch by branch:

- a matching answer gives ("No", "No", "");
- a mismatched, non-N/A answer with evidence gives Issue "Yes" exactly when
  the evidence classifier's output contains "contradicts". Gap is the
  complement, and the recommendation is `format_rec` with the explanation;
- a mismatched, non-N/A answer without evidence gives ("Yes", "No",
  `format_rec` without explanation). The issue number and recommendation
  stay "" unless the reference row has a non-empty Issue Description;
- an N/A answer always gives Issue "No":
  - with evidence, Gap follows the marker and the recommendation is
    `str(explanation)`;
  - without evidence, Gap is "Yes" and the recommendation is the fixed
    notice.

## Findings

| source | as written | input that shows it | evidently intended | confidence | as-written member | corrected member |
|---|---|---|---|---|---|---|
| assets/watsonxai-solution/create_assessor_report.py:259-263 | on a miss, `process_question` is given one question string, not a column, and indexes `questions.iloc[0]` (create_reference_SIG.py:168), which raises for a string. Were it to return, its result is a list of records (create_reference_SIG.py:179-181): `pd.DataFrame([reference])` wraps that list as one row, and `reference['Standard Context']` subscripts a list by a string key, which raises. The records are also keyed `'Standards Context'`, not `'Standard Context'`. So any question missing from the golden SIG ends the report | a questionnaire with one question that the golden SIG lacks (an empty golden SIG) | resolve the missing question, append its row, and use that row | not executed | AssessorReport.ReferencesAsWritten (with AssessorReport.AsWrittenMissRaises) | AssessorReport.GoldenSig.LookupOrAppend (with AssessorReport.Grow and AssessorReport.TableAfterFinds) |

The rest of the model uses the corrected lookup-or-append, with the resolver
as a parameter.

## Left out

- All language-model calls and their prompt wording. Their outputs are
  arbitrary strings supplied by parameters (`answer`, `judgeRelevance`,
  `classifyEvidence`, `recommend`). This covers `generate_gap`,
  `if_apropriate_response`, the model in `generate_recommendation`,
  `determine_response` and `test_context_relevant_any`.
- Values.Json: a JSON number is kept as a real, so the integer `1` and the
  float `1.0` are one value. The model cannot tell them apart, and so `show`
  cannot print them differently as Python's `str()` does. Only the text of
  a recommendation that is a bare number depends on this.
- JSON decoding, including `strict=False`, is the `parse` parameter.
  Python's `str()` of JSON numbers, lists and objects is the `show`
  parameter.
- chromadb: `configure_chroma`, the embedding function, cosine ranking,
  `vdb.query` and `vdb.add`. Retrieval is the `retrieve` parameter.
  `CreateStandardsDb` returns the texts, metadata and ids that `vdb.add`
  would receive.
- docling PDF conversion and `HierarchicalChunker` are foreign calls. Their
  chunk dictionaries are the input of `ChunkStandards`.
- Reading and writing `standards.json` is left out; the kept records are
  passed on directly.
- pandas, openpyxl and CSV I/O: `read_csv`, `read_excel`, `to_csv`, adding
  the report columns, and the module-level runners. A frame is a sequence
  of rows. A cell is a string, NaN or another scalar shown by its text.
- AssessorReport.CompareRow, AssessorReport.CompareTurn,
  AssessorReport.CompareToReference and AssessorReport.CreateAssessorReport
  model `generate_gap` (`classifyEvidence`, called at
  create_assessor_report.py:268) and the resolver (`resolve`, the call at
  :261) as never raising. In the source a raise in either escapes and ends
  `create_assessor_report` with no report, and the model does not capture
  that. A failing resolver would also need every table function (`Grow`,
  `TableAfter`) to carry a failure outcome.
- AssessorReport.ReadSigCsv: the label bookkeeping of the loop is modelled
  by its net effect, putting each new row on top. That bookkeeping is the
  write at label -1, `index += 1` and `sort_index()`. The model does not
  keep pandas index labels apart from positions.
- AssessorReport.CompareToReference: the `''` filler of the three lists is
  written as `false`, `false` and `""`. Both are falsy and contain no
  marker, and the filler slot is never read.
- `get_sig_df` is workbook-layout handling driven by openpyxl, and the
  runner does not call it.
- `create_synthetic_SIG.py` generates test data from random numbers and a
  language model.
- The `nums` argument of `process_question` is unused by it, so the model
  omits it. That also covers the `iloc[increment:, 0]` slice passed on
  retry.
- The golden SIG's extra columns (Issue Description, the issue number
  column, the issue recommendation column) hold NaN for rows added on a
  miss.
- Credentials, environment variables, timing and printing are left out.
  The unused thread-pool import means there is no concurrency.
