# Verified model of SoloScale's evidence, intake, casebook and drafting cores

SoloScale turns private engineering records into evidence-bound drafts. This project models the five parts of it
that carry its promises and proves those promises in Dafny.

**Evidence agent** (`src/soloscale/evidence_agent.py`). A run searches a private knowledge store in a few rounds
under one hit budget (`QueryBudget`, `AgentRun`, `AgentProperties`), adds neighbouring chunks (`Retrieval`),
packs everything into a JSON context of bounded size (`ContextBuilder`, `ContextProperties`, `ContextRecord`),
shows long chunks through windows around the query matches (`FocusSpans`, `FocusWindows`, `FocusedTruncation`),
and returns a result whose references are exactly the chunks its claims cite (`Citations`). The end-to-end
statement is `Citations.ResultIsClosedAndBounded`. What these parts mean, said without the steps that compute
them, is in `AgentTrace` (the course of a run), `SearchMeaning`, `ExpansionMeaning`, `StoreConsistency`,
`ContextMeaning`, `FocusOrder`, `WindowMeaning` and `ResultMeaning`. The outer budget search of the context is a
binary search over a predicate that is not monotone: it is proved locally maximal, it is proved exactly when it
reaches the configured maximum, when it finds the largest fitting budget and when it ends with nothing, and an
input is given on which a fitting maximum is missed and all required evidence is left out.

**Conversation intake** (`src/soloscale/conversation_intake.py`). `TextSegments` cuts texts into overlapping
UTF-8 windows and loses nothing. `MessageTree` proves the explicit-stack traversal equal to the recursive one on
any mapping, cycles included, and the two parent walks; `MessageOrder` has the order in which siblings and what
is below them come out; `MessageBranch` proves that on a consistent forest the projected messages are one linear
branch.

**Casebook** (`src/soloscale/casebook_models.py`, `src/soloscale/casebook_store.py`). `CaseModels` has the
validators of the records, `Mastery` is the five-stage practice gate with its separately written validator,
`AttemptLog` the log as text, `RecordFormat` its records and `RecordReader` a reader of them, `Archive` the
content-addressed files, and `Casebook` the store: a class whose methods keep, under arbitrary short writes and
failures, that the log is exactly the committed attempts and every receipt has its file. Two properties are
false of the code. A note or path that contains U+0085, U+2028 or U+2029 makes the whole log unreadable, because
`splitlines` breaks there and JSON does not escape these characters; `AttemptLog.ReplayIff` is the exact
condition. And a failed attempt can change the files: a receipt is validated after its file is in place and
outside the part that is undone, so a readable file with a blank path leaves an unused copy behind;
`Casebook.CasebookStore.RecordAttempt` says exactly when, and `Casebook.BlankPathLeavesFile` gives an input. A
path with bytes that do not decode (lone surrogates in `str(source)`) fails its validation in the same place and
leaves its copy behind too; such a path is not text, and so outside this model.

**Draft grounding** (`src/soloscale/content_workspace.py`). `ClaimText`, `GroundedText`, `GroundedScenes` and
`Grounding` show that what grounding returns, the validator accepts, and `GroundingProvenance` which text of the
model becomes which draft. The former is false without conditions: a second claim with the same first anchor, or
with the same id and another status, overwrites the on-screen text that carried the first claim's marker, a call
to action that ends with a blank is stripped away, and one of several lines that two posts share is lost when
the posts are numbered. `StoryboardExact` and `GroundingExact` have the exact conditions, part by part and for
the whole draft set, and `RejectedDrafts` has a rejected draft set for each of the four. `XThread` is the
printed X thread and its parser, with the exact condition for their round trip.

**Sweep-line peak** (`scripts/evaluate_resume_concurrency.py`). `SweepPeak` equals the maximum overlap.

Text is a sequence of Unicode scalar values and bytes are its UTF-8 encoding (`Utf8`; section 3 of RFC 3629);
JSON strings are escaped as in section 7 of RFC 8259, other characters written as they are. Loops of the source
are methods proved equal to a recursive specification, and the properties are lemmas about the specification.
What the system is told from outside is a parameter that may take any value: the answers of the store and the
reasoner (`AgentRun.World`), operating-system results (`Casebook.Faults`), the clock and the random part of ids,
case folding, mark removal, digests and the JSON reader of attempts.

## Model

| member | source | states |
|---|---|---|
| Utf8.DecodeEncode | src/soloscale/evidence_agent.py:1267-1271 | encoding a text and decoding it gives the text back; with `DecodeIgnoreSlice` this is what every byte cut in the agent relies on |
| Utf8.DecodeIgnoreSlice | src/soloscale/evidence_agent.py:1302-1306 | decoding any byte slice with errors ignored gives exactly the characters that lie whole inside the slice |
| Utf8.TruncateIsLongestPrefix | src/soloscale/evidence_agent.py:1267-1271 | the truncated text is the longest prefix of the text within the byte limit |
| FocusSpans.FoldIndexMonotone | src/soloscale/evidence_agent.py:1372-1382 | positions of the folded text map to positions of the original in order |
| FocusSpans.FoldIndexCorrect | src/soloscale/evidence_agent.py:1372-1382 | each folded position maps to the character whose folding contains it |
| FocusSpans.MergeSpans | src/soloscale/evidence_agent.py:1385-1393 | the loop over the sorted spans computes the specified merge |
| FocusSpans.MergedCorrect | src/soloscale/evidence_agent.py:1385-1393 | merged spans are strictly separated and cover exactly the union of the given ones |
| FocusSpans.FocusMatchSpans | src/soloscale/evidence_agent.py:1310-1332 | the loops over terms and occurrences, with the limit on spans and the folded-to-original map, compute the merged spans of the specified matches |
| FocusSpans.FocusSpansCorrect | src/soloscale/evidence_agent.py:1310-1332 | focus spans lie inside the text, are strictly separated, and cover exactly the union of the matches |
| FocusSpans.MatchIsInSlice | src/soloscale/evidence_agent.py:1322-1330 | for each match before merging, the folding of the original slice contains the folded term |
| FocusSpans.MatchesAreTerms | src/soloscale/evidence_agent.py:1314-1330 | every match is an occurrence of the folding of one of the terms |
| FocusSpans.NoOccurrenceMissed | src/soloscale/evidence_agent.py:1310-1332 | while the span limit is not reached, every occurrence of every term touches a focus span |
| FocusOrder.LongestTermsFirst | src/soloscale/evidence_agent.py:1310-1332 | the matches come by term, longer terms first, each term's from left to right; an occurrence is missed only when the limit was reached by its own and earlier terms |
| FocusWindows.SpreadIncreases | src/soloscale/evidence_agent.py:1396-1405 | the evenly spread indices strictly increase |
| FocusWindows.DistributedCorrect | src/soloscale/evidence_agent.py:1396-1405 | the chosen spans are separated spans of the list and include the first and the last one when several are chosen |
| FocusWindows.SelectedCorrect | src/soloscale/evidence_agent.py:1418-1431 | the selection is the evenly spread choice of the largest count of at most eight that fits, and is empty exactly when no count fits |
| FocusWindows.WidenCorrect | src/soloscale/evidence_agent.py:1436-1459 | after edge clipping, left extension and merging, windows stay disjoint and in order, hold every focus span, and cost no more than the spare bytes |
| FocusWindows.SharesAddUp | src/soloscale/evidence_agent.py:1436-1444 | the shares of the spare bytes add up to exactly the spare bytes |
| FocusWindows.HeldSpanIsShown | src/soloscale/evidence_agent.py:1461-1462 | a window that holds a span's bytes shows the span's text verbatim |
| FocusWindows.FocusedExcerptCorrect | src/soloscale/evidence_agent.py:1408-1462 | for separated spans: the excerpt is at most max_bytes in UTF-8; when some count fits, it joins disjoint slices of the text in order and each selected span lies inside one of them; when none fits, it is the longest fitting prefix of the text from the middle span on |
| FocusWindows.FitWindows | src/soloscale/evidence_agent.py:1408-1462 | selection, widening, merging and joining, step by step, compute the specified excerpt |
| WindowMeaning.SpreadIsEven | src/soloscale/evidence_agent.py:1396-1405 | each chosen index is its even share of the way from the first to the last, rounded down |
| WindowMeaning.SharesAreEven | src/soloscale/evidence_agent.py:1436-1444 | shares differ by at most one byte, the larger ones first, and add up to the spare bytes |
| WindowMeaning.FitsIff | src/soloscale/evidence_agent.py:1418-1431 | a choice fits exactly when its spans' texts, joined by separators, are within the budget in UTF-8 |
| WindowMeaning.ExcerptIsCentred | src/soloscale/evidence_agent.py:1408-1462 | the excerpt shows windows that hold, for each selected span, its share of spare bytes around it: half before and the rest after, or up to a text end with the remainder on the other side |
| FocusedTruncation.ThreePiecesCorrect | src/soloscale/evidence_agent.py:1295-1307 | without a match and above 13 bytes, head, middle and tail are disjoint pieces of the text in order and the whole fits |
| FocusedTruncation.FocusedTruncateFits | src/soloscale/evidence_agent.py:1274-1307 | for any text, queries and budget the result is at most max_bytes, and it is the text itself when that fits |
| FocusedTruncation.TruncateFocused | src/soloscale/evidence_agent.py:1274-1307 | the branches and the loop over continuation bytes compute the specified truncation |
| FocusedTruncation.TruncationCorrect | src/soloscale/evidence_agent.py:1274-1307 | for any text, terms and budget: a text that fits is returned; with focus spans of which some count fits, the largest even choice stands in centred windows; when not one fits, the longest prefix from the middle span on; with no span, the unfocused pieces |
| FocusedTruncation.ThreePiecesAreThirds | src/soloscale/evidence_agent.py:1295-1307 | without a match and above 13 bytes, each piece shows exactly the characters that lie whole in its third of the available bytes, at the start, the middle and the end of the text |
| ContextRecord.SizeMonotone | src/soloscale/evidence_agent.py:1465-1486 | a longer excerpt prefix never makes the JSON list smaller |
| ContextRecord.FitRecordCorrect | src/soloscale/evidence_agent.py:1465-1486 | the fitted record shows the longest excerpt prefix whose list fits; there is none exactly when no non-empty prefix fits |
| ContextRecord.FitContextRecord | src/soloscale/evidence_agent.py:1465-1486 | the binary search over the prefix length finds that record |
| Retrieval.ExpandContextHits | src/soloscale/evidence_agent.py:801-838 | the loop over retrieved hits and their neighbours, with its two errors, computes the specified expansion |
| Retrieval.ExpansionCorrect | src/soloscale/evidence_agent.py:801-838 | every retrieved hit is shown, shown ids are distinct, and each neighbour list names shown hits that were not retrieved, distinct ones when no chunk is retrieved twice or repeated within one answer |
| Retrieval.ExpandOkIff | src/soloscale/evidence_agent.py:801-838 | expansion fails exactly when the store answers with a retrieved chunk under another identity, or with one chunk that was not retrieved under two identities |
| ExpansionMeaning.ExpansionIs | src/soloscale/evidence_agent.py:801-838 | the shown chunks are the retrieved ones, each followed by its neighbours, every chunk once and as it came first; each retrieved chunk's list has all its neighbours that were not retrieved, in order |
| ContextBuilder.SelectRequired | src/soloscale/evidence_agent.py:874-897 | the loop over primaries, with the set of neighbours already taken, selects the specified required hits |
| ContextBuilder.FitRequiredHits | src/soloscale/evidence_agent.py:917-937 | fitting the required hits one after the other gives up at the first that does not fit whole |
| ContextBuilder.SearchIsLocallyMaximal | src/soloscale/evidence_agent.py:951-960 | the outer binary search, with no monotonicity assumed, ends at a budget that fits (or zero) and is the configured maximum or has a successor that does not fit |
| ContextBuilder.MaximumFoundIff | src/soloscale/evidence_agent.py:951-960 | the search reaches the configured maximum if and only if every probe on the way up to it fits |
| ContextBuilder.LargestFoundIff | src/soloscale/evidence_agent.py:951-960 | the search ends at the largest fitting budget if and only if no failing probe has a fitting budget above it |
| ContextBuilder.NothingFoundIff | src/soloscale/evidence_agent.py:951-960 | the search ends at zero if and only if every probe on the way down fails |
| ContextBuilder.FittingMaximumCanBeMissed | src/soloscale/evidence_agent.py:951-960 | a concrete input, whatever the queries, where the maximum budget fits and the search still leaves every required hit out |
| ContextBuilder.FitWithCommonBudget | src/soloscale/evidence_agent.py:939-960 | profile choice and binary search compute the specified required records |
| ContextBuilder.FitOptionalCorrect | src/soloscale/evidence_agent.py:1489-1520 | an optional record shows a non-empty excerpt prefix and fits; there is none exactly when no profile leaves room for one character |
| ContextBuilder.BuildContext | src/soloscale/evidence_agent.py:866-982 | the whole construction returns the specified records, their ids in order and their JSON text |
| ContextMeaning.BudgetFitsIff | src/soloscale/evidence_agent.py:917-937 | the required hits fit at a budget exactly when none of their excerpts is empty and the list with every whole excerpt fits; then that list is what is packed |
| ContextMeaning.RequiredAreBlocks | src/soloscale/evidence_agent.py:874-897 | the required hits are the shown primaries in order, each followed by the first three of its answering neighbours, or its first one, that no earlier primary took |
| ContextMeaning.OptionalInOrder | src/soloscale/evidence_agent.py:898-899 | the optional hits are the shown hits that are not required, in the order in which they are shown |
| ContextMeaning.ContextIsComplete | src/soloscale/evidence_agent.py:963-982 | after the required records come records of the optional hits in order; a hit is missing only when, next to the records placed before it, no profile leaves room for one character |
| ContextMeaning.RecordsShowExcerpts | src/soloscale/evidence_agent.py:920-981 | every record shows its own chunk, truncated around the queries kept for that chunk: required ones the whole excerpt at one budget, the others a non-empty start of it |
| ContextProperties.RequiredAndOptional | src/soloscale/evidence_agent.py:874-899 | required hits include every shown primary, the optional hits are exactly the other shown hits, and required ids are distinct when the neighbour lists are |
| ContextProperties.RequiredNeighborsMeaning | src/soloscale/evidence_agent.py:880-896 | a primary requires the first three, in order, of its neighbours of the answering role when there are any, or else the first neighbour |
| ContextProperties.ProfileIsRichest | src/soloscale/evidence_agent.py:941-950 | the chosen profile is the first under which the required hits fit at the minimum excerpt budget, the leanest when none does |
| ContextProperties.OptionalProfile | src/soloscale/evidence_agent.py:1489-1520 | an optional record uses the richest profile that shows enough of the excerpt, or else the leanest that fits at all |
| ContextProperties.RequiredRecordsCorrect | src/soloscale/evidence_agent.py:939-960 | the required records are all absent, or all present in order with their whole excerpt at one common budget that is locally maximal |
| ContextProperties.ContextFits | src/soloscale/evidence_agent.py:866-982 | for every expansion and every budget the context JSON never exceeds the budget (two bytes for an empty list) |
| ContextProperties.ContextCorrect | src/soloscale/evidence_agent.py:866-982 | for any budgets and answers: the JSON fits, ids are those of shown hits, required hits are all or nothing, and the rest are optional hits; ids are distinct when no chunk is retrieved twice or repeated within one neighbour answer |
| QueryBudget.NormalizeQueries | src/soloscale/evidence_agent.py:1094-1112 | the loop keeps the first usable queries in order and reports a clip exactly when more than the limit were usable |
| QueryBudget.UsableCorrect | src/soloscale/evidence_agent.py:1104-1111 | usable queries are non-blank, pairwise different up to case and spacing, and different from every excluded one |
| QueryBudget.UsableComplete | src/soloscale/evidence_agent.py:1104-1111 | no other non-blank query is dropped: it is excluded or repeats a usable one |
| PyText.CollapseIsWords | src/soloscale/evidence_agent.py:1105-1105 | a normalised query is the words of the query with one space between them |
| QueryBudget.AcceptHits | src/soloscale/evidence_agent.py:526-554 | accepting one search's hits, with its error, computes the specified state; at most the quota of ids is accepted and appended |
| QueryBudget.MergeHitKeeps | src/soloscale/evidence_agent.py:530-549 | a repeated hit keeps its identity and excerpt, the better score and the distinct channels of both |
| SearchMeaning.AcceptMeaning | src/soloscale/evidence_agent.py:526-554 | accepting fails exactly when a hit looked at contradicts an earlier hit of its chunk; otherwise each chunk's entry is the merge of all its hits looked at, and its focus queries grow by one per hit |
| SearchMeaning.MergeAllKeeps | src/soloscale/evidence_agent.py:530-549 | the merge of several hits has the first one's identity and excerpt, the best score of all and the distinct channels of all |
| SearchMeaning.ChunksInOrder | src/soloscale/evidence_agent.py:526-554 | the chunks after a search are those known before and then the new ones in the order of their first hits, up to the quota |
| SearchMeaning.MergeTextIs | src/soloscale/evidence_agent.py:1144-1150 | merged metadata has the stripped texts of both that say something, once when they are the same |
| QueryBudget.QuotaIsFilled | src/soloscale/evidence_agent.py:526-554 | pigeonhole: when the hits still to come outnumber the known chunks not yet met by the quota, the quota is filled |
| QueryBudget.RunRound | src/soloscale/evidence_agent.py:502-564 | the loop over a round's queries, splitting what is left of the budget by ceiling division, computes the specified round |
| QueryBudget.RoundCorrect | src/soloscale/evidence_agent.py:502-564 | a round keeps ids distinct, never passes its budget, runs its queries in order, each search within its quota, and never needs the clip to max_hits |
| QueryBudget.FullRound | src/soloscale/evidence_agent.py:502-564 | when the searches a round executes are answered in full, the round uses exactly its budget and every search fills its quota |
| QueryBudget.RankedStoreAnswersInFull | src/soloscale/evidence_agent.py:502-564 | a store that ranks at least max_hits known chunks per query answers in full every search a run can make, so the hypothesis of the full-answer theorems can be met |
| AgentRun.RunRetrieval | src/soloscale/evidence_agent.py:474-623 | the rounds loop with all its exits computes the specified retrieval |
| AgentProperties.RetrievalStaysInBudget | src/soloscale/evidence_agent.py:499-623 | in all runs: at most max_hits distinct chunks, no query executed twice up to case and spacing, at most max_queries_per_round searches in each round, round budgets as planned, and no clipped limit |
| AgentProperties.AnotherRoundIff | src/soloscale/evidence_agent.py:576-623 | another round follows if and only if the reasoner asks for more, rounds and hits are left, and one of its queries is usable and was not executed before |
| AgentTrace.RunHasCourse | src/soloscale/evidence_agent.py:474-623 | every run that returns has a course: each round runs a non-empty prefix of the first usable queries it was given, each search with its equal share of the round's budget, stopping only when the budget is used; the next round's queries are the first usable ones of the reasoner's answer to the context shown after the round; the run is over only when it has to be |
| AgentTrace.UsableAreFresh | src/soloscale/evidence_agent.py:1094-1112 | the usable queries are, in order, exactly those that are not blank, not executed before and not a repetition up to case and spacing |
| AgentTrace.EndsEarlyOnlyWhenSatisfied | src/soloscale/evidence_agent.py:576-623 | a run that ends with rounds and hits left ends because the reasoner was satisfied with the last round's context, or no query may be run, or all queries it asked for are blank or were executed before |
| StoreConsistency.ConsistentStoreNeverFails | src/soloscale/evidence_agent.py:474-638 | with a store that gives every chunk one identity, retrieval fails only when no proposed query is usable, and expansion always succeeds |
| AgentProperties.FullAnswersUseTheBudget | src/soloscale/evidence_agent.py:499-564 | when every search the run executed was answered with its full limit of distinct, consistent chunks, every search fills its quota, every round uses exactly its budget, and max_rounds rounds use exactly max_hits |
| AgentProperties.FullStoreAnswersEveryStep | src/soloscale/evidence_agent.py:499-564 | a store that answers in full up to max_hits answers every executed search of every run in full |
| Citations.ValidateDraft | src/soloscale/evidence_agent.py:984-1001 | the checks of the draft report the first fault in claim order |
| Citations.DraftAcceptedIff | src/soloscale/evidence_agent.py:984-1001 | the draft is accepted if and only if every claim cites distinct, non-blank ids of the context |
| Citations.OrderedCitedIds | src/soloscale/evidence_agent.py:1597-1606 | the nested loops return the distinct cited ids in the order of their first citation |
| Citations.ValidateCurrentCitations | src/soloscale/evidence_agent.py:840-864 | the check passes if and only if every cited id has the same identity in the context and in the store's answer |
| Citations.RunAgent | src/soloscale/evidence_agent.py:433-753 | the run, from the proposed queries to the result, computes the specified result or error |
| Citations.FinishIsCitationClosed | src/soloscale/evidence_agent.py:625-753 | references are the distinct cited ids in first-citation order, each with the exact excerpt shown and an identity unchanged in the store; an empty context yields no claims and no references |
| ResultMeaning.FirstFault | src/soloscale/evidence_agent.py:984-1001 | the reported fault is that of the first claim at fault: blank, repeated or foreign references, in that order |
| ResultMeaning.CurrentIffUnchanged | src/soloscale/evidence_agent.py:840-864 | a citation passes exactly when the chunk is shown and the store's last answer for it has the identity it was shown with |
| ResultMeaning.EvidenceIsContext | src/soloscale/evidence_agent.py:625-641 | the evidence shown is the complete context of the retrieved chunks, each excerpt made for the queries that found its chunk |
| ResultMeaning.FinishMeaning | src/soloscale/evidence_agent.py:625-753 | after its retrieval a run ends with the expansion's error, the first fault of the draft, changed evidence exactly when a cited chunk changed, or a result that repeats the draft, the executed queries and the retrieved ids and refers to shown chunks with their identity and excerpt |
| Citations.ResultIsClosedAndBounded | src/soloscale/evidence_agent.py:433-753 | end to end, whatever the store and the reasoner answer: every result is citation-closed and within the hit, query and byte budgets; context ids are distinct when no neighbour answer repeats a chunk |
| TextSegments.Segments | src/soloscale/conversation_intake.py:444-470 | the two nested loops never take their error exit and return the specified segmentation: nothing, the stripped text, or the stripped non-blank windows |
| TextSegments.WindowsChain | src/soloscale/conversation_intake.py:444-470 | windows cut on character boundaries, are at most 1200 bytes, start at least 997 bytes apart and overlap by 197 to 200 bytes |
| TextSegments.WindowsRebuildText | src/soloscale/conversation_intake.py:444-470 | the windows without their overlaps concatenate to the text exactly |
| TextSegments.SegmentationIsLossless | src/soloscale/conversation_intake.py:444-470 | for every text: segments of at most 1200 bytes, every non-blank character kept in some segment, segments in the order of their windows, and the windows of a text that is cut rebuild it |
| MessageTree.Visit | src/soloscale/conversation_intake.py:689-705 | the explicit-stack search emits exactly the recursive preorder from its start, on any mapping |
| MessageTree.OrderedNodes | src/soloscale/conversation_intake.py:685-718 | the traversal equals the recursive preorder and emits every key exactly once, on any mapping with cycles, dangling or shared children |
| MessageTree.PreorderIsPermutation | src/soloscale/conversation_intake.py:685-718 | the recursive preorder is a permutation of the mapping's keys |
| PyText.TextLeMeaning | src/soloscale/conversation_intake.py:674-682 | one id comes before another exactly when it ends or has the smaller character where they first differ |
| MessageOrder.ListsAreByTime | src/soloscale/conversation_intake.py:701-714 | on any mapping the children below a node and the roots are visited by time and then by id |
| MessageOrder.SiblingsByTime | src/soloscale/conversation_intake.py:685-718 | in a consistent forest, of two siblings the one with the smaller time, or the same time and the smaller id, is emitted first, with everything below it before the other |
| MessageTree.CurrentPath | src/soloscale/conversation_intake.py:766-783 | the path is None without a valid current node, and otherwise exactly the keys reached by some number of parent steps |
| MessageTree.ProjectedParent | src/soloscale/conversation_intake.py:903-917 | the walk ends at the first projected node on the parent chain, or at none when no node above is projected, cycles included |
| MessageBranch.Project | src/soloscale/conversation_intake.py:871-901 | the projection loop, with its conflict error, computes the specified projection |
| MessageBranch.ProjectedIff | src/soloscale/conversation_intake.py:871-901 | the projection fails exactly when a selected message id comes with two texts; otherwise it keeps exactly the first selected node of each message id |
| MessageBranch.ProjectedKeepsMessages | src/soloscale/conversation_intake.py:891-901 | no selected message is dropped: some kept node carries the same message id and text |
| MessageBranch.ForestPreorder | src/soloscale/conversation_intake.py:685-718 | in a consistent forest every node is emitted after its parent |
| MessageBranch.RootToLeaf | src/soloscale/conversation_intake.py:862-917 | on a consistent forest with a valid current node the messages come out root to leaf and each one's recorded parent is the message before it |
| Mastery.DeriveMastery | src/soloscale/casebook_store.py:120-157 | the loop that overwrites stage results gives the snapshot of the latest outcomes, or an error exactly when an attempt belongs to another case |
| Mastery.LatestMeaning | src/soloscale/casebook_store.py:124-133 | a stage's result is the outcome of the attempt at it that no other attempt at it follows, and there is none exactly when it was never attempted |
| Mastery.ValidIffDerived | src/soloscale/casebook_models.py:149-183 | a snapshot satisfies the validator if and only if it is the one derived from its results |
| Mastery.DerivedIsValid | src/soloscale/casebook_store.py:120-157 | what is derived from any attempts, regressions included, satisfies the validator |
| Mastery.StatusMeaning | src/soloscale/casebook_store.py:136-148 | interview-ready means every stage's latest attempt is a pass; captured means no attempts at all |
| Mastery.GateIsNextStage | src/soloscale/casebook_store.py:325-340 | a pass at a stage gets through the gate if and only if the stage is not after the snapshot's next stage |
| Mastery.GatedSnoc | src/soloscale/casebook_store.py:325-340 | recording keeps the log gated: each pass was preceded, for every earlier stage, by a latest attempt that was a pass |
| Mastery.FirstPassesInStageOrder | src/soloscale/casebook_store.py:325-340 | in a gated log the first passes occur in stage order, whatever regressions happen in between |
| AttemptLog.ReadAttempts | src/soloscale/casebook_store.py:303-307 | the loop over the lines computes the specified replay |
| AttemptLog.RecordBreaksIff | src/soloscale/casebook_store.py:498-498 | a written record contains a line break of `splitlines` if and only if one of its texts contains U+0085, U+2028 or U+2029 |
| AttemptLog.ReplayIff | src/soloscale/casebook_store.py:290-307 | replaying a log of valid attempts returns them in order if and only if no text in it contains one of those separators; otherwise reading fails |
| AttemptLog.SeparatorInNoteLosesTheLog | src/soloscale/casebook_store.py:303-307 | a valid attempt with a concrete note makes the whole log unreadable |
| RecordFormat.RecordDelimits | src/soloscale/casebook_store.py:498-498 | a written record determines its fields and its own end: no record is the beginning of another |
| RecordFormat.ReaderExists | src/soloscale/casebook_store.py:303-307 | a reader that accepts only what the validators accept, reads every such record back and rejects every record cut short, as the replay theorem assumes, exists |
| RecordReader.ReadsAttempt | src/soloscale/casebook_store.py:498-498 | a reader of JSON objects, strings with their escapes, and decimal numbers, written on its own, gets every attempt back from its record, for paths without slashes in their parts |
| Archive.AvailableHashFilename | src/soloscale/casebook_store.py:744-750 | the counter loop ends and returns the first free name |
| Archive.ArchiveReusingIdentical | src/soloscale/casebook_store.py:716-741 | an identical file is reused exactly when it is stored under the digest itself; otherwise nothing existing is touched and a new file is added |
| Casebook.ReceiptValidIff | src/soloscale/casebook_models.py:102-108 | of what the store puts into a receipt only the path of its source can be invalid: as text, exactly when it is blank |
| Casebook.NoFailuresIffSound | src/soloscale/casebook_store.py:538-567 | no failure is reported exactly when every receipt has an archived file of its digest and size |
| Casebook.FailuresAreReported | src/soloscale/casebook_store.py:538-567 | the report names exactly the receipts that are not sound, in order, and for each the problem it has: no file, another size, or the right size and another digest |
| Casebook.ReceiptsAreTheAttempts | src/soloscale/casebook_store.py:418-420 | the receipts checked are those of the attempts that have one, each once, in order |
| Casebook.TurnedDownForOneReason | src/soloscale/casebook_store.py:309-349 | a request is turned down, for exactly one of seven reasons, or its case's log can be read and it is acceptable |
| Casebook.CasebookStore.AppendAttempt | src/soloscale/casebook_store.py:495-530 | after any short or failed writes the log has the whole line or is unchanged; a failing close is only reported |
| Casebook.CasebookStore.CreateCase | src/soloscale/casebook_store.py:168-259 | publishes the whole case with its evidence or nothing, and keeps every case good; each error comes for its own reason; without faults it succeeds if and only if the id is valid and new, the receipts' tokens differ, the texts are not blank, and the sources are there, readable and have paths that are not blank |
| Casebook.CasebookStore.StoreAttempt | src/soloscale/casebook_store.py:347-371 | archives the receipt and appends the attempt; a failure leaves everything as it was, except that a file newly archived under a blank source path stays, alone |
| Casebook.CasebookStore.ArchiveReceipt | src/soloscale/casebook_store.py:474-493 | the receipt of the stored or reused file; it fails exactly when copying fails or the source path is blank, and then leaves one new file exactly when the path is blank and the content was not archived before |
| Casebook.CasebookStore.RecordAttempt | src/soloscale/casebook_store.py:309-392 | commits exactly the requested attempt or commits nothing; a request that is turned down gets the error that is its reason, any other failure one that names where it stopped; a failure changes the files if and only if a request that passes all earlier checks brings new content under a blank path, and then adds that one file; without faults it succeeds if and only if the log is readable, the request passes the gate and the path is not blank; keeps the log equal to the committed attempts, the gate, and every receipt's file |
| Casebook.BlankPathLeavesFile | src/soloscale/casebook_store.py:347-371 | a concrete request that passes every check before archiving and leaves an unused file behind |
| Casebook.CasebookStore.VerifyIntegrity | src/soloscale/casebook_store.py:400-437 | lists the failures of all receipts; in every reachable state it reports none, and it is refused exactly when the log cannot be replayed |
| Casebook.GoodCaseIsSound | src/soloscale/casebook_store.py:400-437 | in a good case every evidence and logged receipt has a file of its digest and size |
| Casebook.RecordedIsGood | src/soloscale/casebook_store.py:309-371 | committing an acceptable attempt after storing its receipt keeps the case good |
| XThread.ParseThread | src/soloscale/editorial_publishing_handoff.py:271-287 | the loop over markers accepts and returns exactly the specified parts |
| XThread.RoundTripIff | src/soloscale/editorial_workspace.py:181-181 | printing and then parsing gives back the trimmed posts if and only if there are 1 to 12, each starting with its own N/Total marker and containing no other marker line |
| XThread.AcceptedTextIsItsParts | src/soloscale/editorial_publishing_handoff.py:271-287 | the raw slices of an accepted text concatenate back to it from the first marker on, with indices exactly 1..N |
| XThread.PartKeepsMarker | src/soloscale/editorial_publishing_handoff.py:279-286 | each part still starts with the marker its slice started with |
| XThread.NumberedHasMarker | src/soloscale/content_workspace.py:765-768 | a post numbered index/total starts with exactly that marker |
| ClaimText.MentionsSplit | src/soloscale/content_workspace.py:60-60 | the claim ids a text names are those of its parts, around any character that no id contains |
| GroundedText.AnchoredChannel | src/soloscale/content_workspace.py:726-734 | the loop that appends missing lines and the call to action computes the specified channel |
| GroundedText.AnchoredIsValid | src/soloscale/content_workspace.py:726-734 | for a brief that names only its own claims and a trimmed one-line call to action, any channel that names no unknown claim becomes a valid artifact: exactly the supplied ids, every marker, and the call to action |
| GroundedText.ThreadIsValid | src/soloscale/content_workspace.py:746-768 | for such a brief the grounded thread, joined as the validator joins it, is a valid artifact |
| GroundedText.AddedLineFits | src/soloscale/content_models.py:29-32 | a line added for a claim within the field limits fits a post of a thread of at most 12 |
| GroundedText.XPostIsValid | src/soloscale/content_workspace.py:736-744 | for such a brief the standalone post keeps the first marker, names no unknown claim and never exceeds 280 characters when the first claim's text is within its limit |
| GroundedScenes.GroundStoryboard | src/soloscale/content_workspace.py:770-824 | the loops that anchor claims to scenes compute the specified storyboard |
| GroundedScenes.SettledIff | src/soloscale/content_workspace.py:772-799 | every claim a scene is the first to anchor has its marker there in the end if and only if all were there already or at most one is missing from the scene's fixed texts |
| GroundedScenes.OwnScenesMarkedIff | src/soloscale/content_workspace.py:770-799 | over the whole storyboard, every anchored claim keeps its marker on its own scene if and only if all scenes are settled |
| GroundedScenes.AllMarked | src/soloscale/content_workspace.py:770-799 | when all scenes are settled and claims of one id have one status, every claim's marker is somewhere in the storyboard |
| GroundedScenes.OwnAnchorsSettle | src/soloscale/content_workspace.py:770-799 | all scenes are settled when no two claims of different markers share their first anchor |
| Grounding.GroundDrafts | src/soloscale/content_workspace.py:696-852 | the whole grounding, with its errors, computes the specified drafts |
| GroundingProvenance.DraftsComeFromModel | src/soloscale/content_workspace.py:696-852 | each draft is made of the model's draft of the same name: every channel starts with the model's stripped text, the thread with its distinct non-empty bodies in order, the storyboard with its scenes in order, unchanged but for an anchored screen text, and the post is the model's or the one rendered from the first claim |
| GroundingProvenance.ChannelIsModelPlusMissing | src/soloscale/content_workspace.py:726-734 | a channel is exactly the model's text, a paragraph for each claim whose marker was missing, in claim order, and the call to action if it was missing |
| GroundingProvenance.PrefixIsNumbering | src/soloscale/content_workspace.py:748-753 | what is cut off in front of a post is its numbering, N or digits, a slash, TOTAL or digits and blanks, and nothing else |
| GroundingProvenance.BodyOfNumbered | src/soloscale/content_workspace.py:746-768 | numbering a trimmed body and taking the body of the post gives it back |
| GroundingProvenance.GroundOkIff | src/soloscale/content_workspace.py:696-852 | grounding fails exactly when some text or scene names an unknown claim, the thread or the storyboard gets more than 12 items, or a field limit is broken, in this order |
| Grounding.ValidateDrafts | src/soloscale/content_workspace.py:1013-1083 | the validator's loops accept exactly the drafts that meet its conditions |
| Grounding.GroundedDraftsAreValid | src/soloscale/content_workspace.py:696-852 | every draft set grounding returns passes the validator's claim-id, truth-marker, call-to-action, numbering and scene-order checks, for safe briefs with one status per id and settled scenes |
| StoryboardExact.MarkAllKeeps | src/soloscale/content_workspace.py:772-799 | after a scene was marked by the claims it anchors first, a claim's marker is there if and only if it is in a text grounding leaves alone, or on a screen that lacked no marker, or was the last one missing |
| StoryboardExact.StoryboardValidIffMarked | src/soloscale/content_workspace.py:1055-1083 | whatever the brief's texts, the grounded storyboard passes if and only if every claim's marker is on some scene: ids, times, claim ids and the call to action are always right |
| StoryboardExact.StoryboardValidIff | src/soloscale/content_workspace.py:770-824 | the grounded storyboard passes if and only if every claim keeps its marker on some scene of the model or, when none anchored it, on the scene added for its id; for briefs whose texts carry no other claim's marker |
| StoryboardExact.OneStatusIsKept | src/soloscale/content_workspace.py:776-788 | claims of one id and one status keep their marker on the added scene |
| GroundingExact.ChannelValidIff | src/soloscale/content_workspace.py:726-734 | exactly when a grounded channel is valid, for any claim texts and any call to action: one to be added must not end with a blank, unless it spans an empty line or has a newline at an end and is found again further to the left |
| GroundingExact.ThreadValidIff | src/soloscale/content_workspace.py:746-768 | exactly when the grounded thread is valid, for any claim texts and any call to action: one paragraph that the bodies already have must lie within one numbered post |
| GroundingExact.OneLineIsHeld | src/soloscale/content_workspace.py:746-768 | a call to action of one line that the bodies have always lies within one numbered post |
| GroundingExact.XPostValidIff | src/soloscale/content_workspace.py:736-744 | exactly when the standalone post is valid, for any brief |
| GroundingExact.GroundedDraftsValidIff | src/soloscale/content_workspace.py:696-852 | for every brief and whatever the model wrote, the drafts grounding returns pass the validator if and only if each channel, the thread, the post and the storyboard can be grounded |
| RejectedDrafts.SecondClaimOverwritesFirst | src/soloscale/content_workspace.py:786-799 | concrete drafts that grounding returns without an error and the validator rejects: two claims share a scene |
| RejectedDrafts.BlankEndIsStripped | src/soloscale/content_workspace.py:732-733 | concrete drafts that grounding returns without an error and the validator rejects: the call to action ends with a blank |
| RejectedDrafts.SplitCtaIsLost | src/soloscale/content_workspace.py:761-768 | concrete drafts that grounding returns without an error and the validator rejects: two posts share a call to action of two lines |
| RejectedDrafts.SecondStatusOverwritesFirst | src/soloscale/content_workspace.py:772-799 | concrete drafts that grounding returns without an error and the validator rejects: the brief has one claim id with two statuses |
| SweepPeak.Peak | scripts/evaluate_resume_concurrency.py:389-395 | for well-timed calls the sweep returns the maximum, over all times, of the number of half-open intervals that contain the time, attained at some time |
| SweepPeak.HighestActive | scripts/evaluate_resume_concurrency.py:391-395 | the loop returns the highest running sum over the sorted events |

## Left out

- Casebook.CasebookStore.AppendAttempt: truncation after a failed write is taken to succeed, as nothing can be said about the log when it does not.
- Casebook.CasebookStore.RecordAttempt: removing a newly archived file after a failure is taken to succeed; the clock is read once per operation.
- Casebook.CasebookStore.CreateCase: evidence kinds and the fields that may be blank are not modelled, nor is the id made from a title; the staging directory and its atomic rename are one step.
- Casebook.FailuresAreReported: problems that need symbolic links, absolute paths or unreadable files are not modelled.
- Casebook.CasebookStore.VerifyIntegrity: problems that need symbolic links, absolute paths or unreadable files are not modelled.
- AttemptLog.ReplayIff: the JSON reader is any function that reads back the records the validators accept and rejects cut records, not a parser; `RecordFormat.ReaderExists` shows there is one, and `RecordReader` reads what was written without validating it. Files are shorter than 2^63 bytes.
- Grounding.GroundedDraftsAreValid: leaves out the privacy scan of both functions; its conditions on the brief are sufficient, and `GroundingExact.GroundedDraftsValidIff` has the exact ones.
- GroundedScenes.SettledIff: for claim texts that carry no other claim's marker; a line that carries several markers can stand for several claims.
- GroundedScenes.OwnScenesMarkedIff: for claim texts that carry no other claim's marker, as above.
- StoryboardExact.MarkAllKeeps: for claim texts that carry no other claim's marker, as above.
- StoryboardExact.StoryboardValidIff: for briefs whose texts carry no other claim's marker; for the others `StoryboardExact.StoryboardValidIffMarked` says that only a lost marker can be wrong, without saying from the model's scenes which ones are lost.
- GroundingExact.GroundedDraftsValidIff: for briefs whose texts carry other claims' markers the storyboard's condition is that every marker is on some grounded scene; for a call to action that spans an empty line, or has a newline at an end, the condition is that the joined thread or stripped channel still has it.
- GroundingProvenance.ChannelIsModelPlusMissing: for claim texts and calls to action that do not end with a blank; for the others the last paragraph loses its blanks, as `GroundingExact.ChannelValidIff` says.
- GroundedText.AnchoredIsValid: briefs that name foreign claims and other calls to action are covered by `GroundingExact.ChannelValidIff`.
- GroundedText.ThreadIsValid: such briefs are covered by `GroundingExact.ThreadValidIff`.
- GroundedText.XPostIsValid: such briefs are covered by `GroundingExact.XPostValidIff`.
- GroundedScenes.AllMarked: claims of one id with different statuses are covered by `StoryboardExact.StoryboardValidIff`.
- ContextProperties.ContextCorrect: ids can repeat when the store repeats a chunk within one neighbour answer, since a repeated one is packed twice.
- Casebook.ReceiptValidIff: source paths that are not text (lone surrogates) cannot occur in the model; the code refuses them at the same place.
- ContextBuilder.BuildContext: rendering a hit's metadata under a profile is an arbitrary function, and the dictionaries keyed by chunk id are lists of records.
- AgentRun.RunRetrieval: the proposed queries (seed query and plan) are an input, and limitation texts, manifests and artifacts are not modelled; failing calls of the store or the reasoner end a run and are left out.
- FocusSpans.FocusMatchSpans: the tokeniser that turns queries into search terms is a parameter.
- MessageBranch.ParseBranch: visibility, roles and message texts are attributes of a node; timestamps, chunk ids and provenance are left out.
- SHA-256, case folding, Unicode decomposition and JSON parsing are arbitrary functions; lone surrogates cannot occur in the model's text.
- File permissions, symbolic links, temporary files, directory syncing, subprocesses, HTTP and zip reading.
- The language models, prompts, user interfaces, command lines and cloud scripts.
- Removal of claim markers from public text and the redaction patterns: sequences of regular expressions without a law of their own.
- Interview packets, storyboard and channel renderers without a model, publication receipts, and the `distribution` summary next to `peak`, which would add only easy members.
