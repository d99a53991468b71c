# coding-in-parallel, modelled in Dafny

This project models the core of *coding-in-parallel*, an agent that repairs a
failing Python repository. The agent works in four stages:

1. It recalls candidate code spans from a language model's reply.
2. It probes each candidate and, when enabled, runs read-only investigations.
3. It plans steps, either by synthesis or from landmarks.
4. For every step it proposes unified diffs and executes them in a
   transactional, no-regression executor (TNR). The executor checkpoints HEAD,
   validates a diff, applies it, runs the gates, and then commits or reverts.

The model covers the pure logic of `validate.py`, `vcs.py` (diff normaliser,
manual applier, hunk applier), `tnr.py`, `controller.py`, `investigator.py`,
`planner.py`, `proposer.py`, `ast_index.py`, `config.py` and the records of
`types.py`. The parts that change state step by step are imperative Dafny:

- the git repository, as the class `Vcs.Repository`;
- the normaliser loop, the manual applier and the hunk applier;
- the transaction loop, `Tnr.TxnPatch`;
- probing, `Investigator.Probe`;
- the suspect collection, `Investigator.CandidatesToSuspects`;
- the investigation loop, `Investigator.RunInvestigations` and its loop `Investigator.ProbeLoop`;
- the controller's step, attempt and retry loops, `Controller.RunController`.

Each of these methods is proved equal to a specification function (for the
investigation loop, `Investigator.ProbeFrom`). Its properties are then proved
as lemmas about that function.

The outside world is modelled as parameters:

- **Language model.** Every reply is a string given as input. `json.loads` is
  an oracle `Parser` from string to parsed JSON. An empty reply is read as
  `{}` or `[]`, exactly as `response or "{}"` does.
- **Git and the gates.** The working tree is a map from path to text. The
  following are oracle functions of that tree:
  - `git apply -`;
  - `git diff --numstat`, whose text is parsed by the model;
  - the static checks;
  - the targeted tests.
- **Commits.** They are the list `commits` of a `Vcs.Repository`, and
  `git diff base..HEAD` is an oracle over the two commits' trees.
- **Investigation machinery.** The scheduler, the probe runner and `combine`
  are oracles. Their effects are recorded as an event trace.

`types.py` declares only `AstSpan`, `Candidate`, `Understanding`,
`PlanStep`, `DiffProposal` and `TaskContext`. The records `Node`,
`ProbePatch`, `Landmark`, `Pcb` and the failure pattern are used by the core,
but their declarations are not part of this model. The model gives them the
fields the core reads and writes.

## Behaviour worth knowing

The model does what the code does in these places, even where a reader of the
docstrings might expect more:

- **No line-window check and no API-signature guard.** `ensure_within_limits`
  (validate.py:40-63) checks the diff's shape, the file count, the allowlist,
  the changed-line budget and that a target file is touched. It checks
  nothing else, and neither does `Validate.EnsureWithinLimits`.
- **The `padding_lines` call.** `tnr.py:69` passes `padding_lines=` to
  `ensure_within_limits`, which declares no such parameter. Python raises
  `TypeError` on the first proposal inside the budget. This is modelled as
  written in `Tnr.TxnAsWritten`; see "## Findings". The rest of the model,
  the controller included, is built on the corrected transaction `Tnr.Txn`.
- **No range validation of the configuration.** `Config.from_dict`
  (config.py:74-90) keeps whatever values the mapping holds, negative or
  zero included. `Config.FromDict` does the same.
- **Not every failure is local.** An error from the manual applier (a
  missing file) escapes `txn_patch` without a revert, and `vcs.commit`
  raises when there is nothing to commit. `Tnr.Txn` reports both as
  `Raised`.

## Model

| member | source | states |
|---|---|---|
| Json.IntOfSignedDigits | src/coding_in_parallel/planner.py:135-136 | `int()` of a string that strips to an optional sign and decimal digits is that number, negated for "-" |
| Json.IntOfGroupedDigits | src/coding_in_parallel/planner.py:135-136 | `int()` accepts one underscore between digit groups and drops it |
| Json.IntOfRendered | src/coding_in_parallel/planner.py:135-136 | `int()` of the decimal text of any integer gives it back |
| Json.FloatOfSignedDigits | src/coding_in_parallel/planner.py:151 | `float()` of a string that strips to an optional sign and digits is that number |
| Json.FloatOfDecimal | src/coding_in_parallel/planner.py:151 | `float()` of "d.b" is the decimal value d + b/10^len(b) |
| Validate.RequireUnifiedDiff | src/coding_in_parallel/validate.py:17-28 | accepted exactly when the text starts with "diff --git", contains "@@" and no line is an added `def`/`class` header ending in "::"; each rejection is one of the three shape errors |
| Validate.CountChanged | src/coding_in_parallel/validate.py:31-32 | the count of "+"/"-" lines is at most the line count, is 0 iff no line is a change line, and equals the line count iff every line is one |
| Validate.CountChangedAppend | src/coding_in_parallel/validate.py:31-32 | the changed-line count is additive over concatenated runs of lines |
| Validate.HeaderFile | src/coding_in_parallel/validate.py:10 | the b-path a header line yields is a non-empty run without whitespace |
| Validate.HeaderFileOfRendered | src/coding_in_parallel/validate.py:10 | a rendered `diff --git a/f b/f` header yields `f`, whatever follows it |
| Validate.EnsureWithinLimits | src/coding_in_parallel/validate.py:40-63 | accepted exactly when the shape is good, at least one file is touched, at most `max_files`, all inside the allowlist, at most `max_loc` changed lines, and some touched file is a target span's file |
| Validate.EnsureWithinLimitsOrder | src/coding_in_parallel/validate.py:50-63 | the checks run in the source's order: a rejection for a later rule implies every earlier rule passed |
| Validate.OutsideAllowedRejected | src/coding_in_parallel/validate.py:56-57 | a well-shaped diff within the file cap that touches a file outside the allowlist is rejected for that reason, whatever its size |
| Validate.TargetCheckRedundant | src/coding_in_parallel/validate.py:61-63 | with the allowlist set to the spans' files (as tnr.py:47 does), the target-span check never fires |
| Validate.SingleFileDiffTouched | src/coding_in_parallel/validate.py:35-37 | a one-file diff touches exactly its file |
| Validate.SingleFileDiffCount | src/coding_in_parallel/validate.py:31-32 | a one-file diff counts exactly its body lines as changed |
| Validate.SingleFileDiffShape | src/coding_in_parallel/validate.py:17-28 | a one-file diff whose lines hold no suspicious header passes the shape check |
| Validate.SingleFileDiffPasses | src/coding_in_parallel/validate.py:40-63 | a one-file diff within the caps, on an allowed target file, passes every check |
| Vcs.FrameEnd | src/coding_in_parallel/vcs.py:21-31 | after a header the normaliser resumes one to three lines later, never past the end |
| Vcs.Frame | src/coding_in_parallel/vcs.py:16-31 | the header is followed by exactly one "--- " line and one "+++ " line, copied or made up |
| Vcs.Rejoin | src/coding_in_parallel/vcs.py:35-37 | a diff that ended in a newline still ends in one after normalising |
| Vcs.EmitHeader | src/coding_in_parallel/vcs.py:16-32 | the header branch of the loop emits `Frame` and resumes at `FrameEnd` |
| Vcs.Normalize | src/coding_in_parallel/vcs.py:10-38 | the `_normalize_diff` loop computes `NormalizeDiff` |
| Vcs.NormalizeFromFramed | src/coding_in_parallel/vcs.py:14-34 | the output is framed: every header is followed by its "---" and "+++" lines |
| Vcs.NormalizeFromFixed | src/coding_in_parallel/vcs.py:14-34 | framed lines pass through the loop unchanged |
| Vcs.NormalizeFromPassthrough | src/coding_in_parallel/vcs.py:33-34 | without headers every line is copied |
| Vcs.NormalizeShortFixed | src/coding_in_parallel/vcs.py:10-38 | "" and "\n" normalise to themselves |
| Vcs.FixedWhenJoined | src/coding_in_parallel/vcs.py:10-38 | joined framed lines, with or without a final newline, are a fixed point unless they end in a blank line |
| Vcs.NormalizeIdempotent | src/coding_in_parallel/vcs.py:10-38 | normalising a normalised diff changes nothing, unless it ends in "\n\n" |
| Vcs.NormalizeLosesBlankLine | src/coding_in_parallel/vcs.py:10-38 | the exception is real: a line followed by three newlines loses one per pass |
| Vcs.ReadText | src/coding_in_parallel/vcs.py:95 | `read_text` leaves no carriage return: "\r\n" and "\r" become "\n" |
| Vcs.AddNewline | src/coding_in_parallel/vcs.py:108-111 | an added line always ends in a newline |
| Vcs.ApplyHunkLines | src/coding_in_parallel/vcs.py:96-112 | the hunk loop of `_apply_hunks` computes `Patch` |
| Vcs.ApplyHunks | src/coding_in_parallel/vcs.py:93-113 | applying hunks fails exactly when the file does not exist |
| Vcs.ApplyHunksFrame | src/coding_in_parallel/vcs.py:93-113 | applying hunks rewrites only that file; the set of files and every other file stay the same |
| Vcs.Added | src/coding_in_parallel/vcs.py:107-111 | there are no more added texts than hunk lines |
| Vcs.PatchPlusOnly | src/coding_in_parallel/vcs.py:98-112 | a hunk of "@@" and "+" lines puts the added texts in front of the rest of the file |
| Vcs.ApplyHunksPrepends | src/coding_in_parallel/vcs.py:93-113 | on a file, such a hunk writes the added lines followed by the file's text |
| Vcs.PatchIgnoresContextText | src/coding_in_parallel/vcs.py:101-104 | a context line's text is never compared with the file |
| Vcs.PatchContextOnly | src/coding_in_parallel/vcs.py:98-112 | context lines alone, no more than the file has, give the file back |
| Vcs.PatchRemovesFirst | src/coding_in_parallel/vcs.py:105-106 | a "-" line drops the file's current line whatever its text |
| Vcs.SkipPrefixed | src/coding_in_parallel/vcs.py:82-85 | the skip loop stops at the first line without the prefix, or at the end |
| Vcs.SectionEnd | src/coding_in_parallel/vcs.py:87-89 | a file's hunk stops at the next header or at the end |
| Vcs.SectionStart | src/coding_in_parallel/vcs.py:82-85 | the hunk starts after the header and the skipped "---"/"+++" lines |
| Vcs.ReadSection | src/coding_in_parallel/vcs.py:81-89 | the inner loops collect exactly the lines between `SectionStart` and `SectionEnd` |
| Vcs.ManualApply | src/coding_in_parallel/vcs.py:71-90 | the `_manual_apply` loop computes `ManualFrom` |
| Vcs.ManualFromKeepsFiles | src/coding_in_parallel/vcs.py:71-90 | the manual applier never creates or deletes a file |
| Vcs.SingleSectionBounds | src/coding_in_parallel/vcs.py:81-89 | in a framed one-file diff the hunk runs from the fourth line to the end |
| Vcs.SectionEndNoHeader | src/coding_in_parallel/vcs.py:87-89 | without further headers the hunk runs to the end |
| Vcs.ManualSingleFile | src/coding_in_parallel/vcs.py:71-90 | a framed one-file diff applies its hunk to the file its header names (the b-path without "b/") |
| Vcs.ApplyDiff | src/coding_in_parallel/vcs.py:61-68 | the diff is normalised, `git apply` is used when it succeeds, otherwise the manual applier, which keeps the set of files |
| Vcs.RevertTo | src/coding_in_parallel/vcs.py:123-127 | the working tree becomes the commit's tree, HEAD moves to it, and history is kept |
| Vcs.CommitAll | src/coding_in_parallel/vcs.py:134-139 | commit fails exactly when the tree equals HEAD's; otherwise the tree becomes the new HEAD commit with its message |
| Vcs.Repository.Checkpoint | src/coding_in_parallel/vcs.py:116-120 | the checkpoint is HEAD, a commit in the history |
| Vcs.Repository.Revert | src/coding_in_parallel/vcs.py:123-127 | the repository's new state is `RevertTo` of the old one |
| Vcs.Repository.Commit | src/coding_in_parallel/vcs.py:134-139 | the new state is `CommitAll`'s, or unchanged with the error |
| Vcs.Repository.Apply | src/coding_in_parallel/vcs.py:61-68 | only the working tree changes, to `ApplyDiff`'s tree, with its error |
| Tnr.MuOfAppend | src/coding_in_parallel/tnr.py:28-33 | mu is the sum over the numstat lines of several files |
| Tnr.NumstatLineMu | src/coding_in_parallel/tnr.py:29-32 | a text file's numstat line counts (added + removed) // 2 |
| Tnr.BinaryLineMu | src/coding_in_parallel/tnr.py:31 | a binary file's "-\t-" line counts nothing |
| Tnr.Budget | src/coding_in_parallel/tnr.py:59 | the action budget is at least 1 and at least `actions_per_txn` |
| Tnr.Baseline | src/coding_in_parallel/tnr.py:50-56 | with targeted tests mu_pre is 0 or 1, otherwise the measured mu with no log |
| Tnr.Gate | src/coding_in_parallel/tnr.py:82-112 | a failing gate reverts to the checkpoint; a result comes only after every enabled gate passed and is the commit "txn:"+step id reporting the proposal; a failing commit raises on the applied tree |
| Tnr.Attempt | src/coding_in_parallel/tnr.py:62-112 | a validation failure logs "validation failed: ..." and leaves the repository alone; a later failure reverts; a commit comes only from passing gates |
| Tnr.GiveUp | src/coding_in_parallel/tnr.py:114-115 | after the loop, revert and report no commit |
| Tnr.TxnFrom | src/coding_in_parallel/tnr.py:58-115 | the attempt loop from proposal k on, as a function of the repository state, which it keeps valid; its outcomes are stated by `TxnFromOutcomes` |
| Tnr.Txn | src/coding_in_parallel/tnr.py:36-115 | `txn_patch` (without the `padding_lines` keyword) as a function of the repository state, which it keeps valid; its outcomes are stated by the lemmas below |
| Tnr.GateOn | src/coding_in_parallel/tnr.py:82-112 | the gate code on the repository does what `Gate` says |
| Tnr.AttemptOn | src/coding_in_parallel/tnr.py:62-112 | one attempt on the repository does what `Attempt` says |
| Tnr.BaselineOn | src/coding_in_parallel/tnr.py:50-56 | the baseline measurement is `Baseline` |
| Tnr.TxnPatch | src/coding_in_parallel/tnr.py:36-115 | `txn_patch` gives the outcome and repository `Txn` describes |
| Tnr.TxnFromOutcomes | src/coding_in_parallel/tnr.py:58-115 | the loop commits only a proposal within budget after its gates; when nothing commits it reverts with mu unchanged; an error keeps the history |
| Tnr.TxnCommitsOnlyAfterGates | src/coding_in_parallel/tnr.py:58-112 | a commit is of a proposal within the budget that passed validation and every gate, and becomes HEAD |
| Tnr.TxnNoCommitReverts | src/coding_in_parallel/tnr.py:114-115 | without a commit the repository is back at the checkpoint, no diff is reported, and mu_post = mu_pre |
| Tnr.TxnRaisedKeepsHistory | src/coding_in_parallel/tnr.py:36-115 | an escaping error leaves commits and messages unchanged |
| Tnr.TxnFromBudget | src/coding_in_parallel/tnr.py:58-61 | the loop's result depends only on the proposals within the budget |
| Tnr.TxnCommitsPassingProposal | src/coding_in_parallel/tnr.py:62-112 | a first proposal that validates, applies, passes every enabled gate and changes the tree is committed and becomes HEAD |
| Tnr.AttemptCommits | src/coding_in_parallel/tnr.py:62-112 | an attempt whose proposal validates, applies, passes every enabled gate and changes the tree stops with a commit of that proposal |
| Tnr.TxnFromSkipsRejected | src/coding_in_parallel/tnr.py:58-76 | proposals that fail validation only add their "validation failed" log line and leave the repository alone |
| Tnr.TxnCommitsFirstPassing | src/coding_in_parallel/tnr.py:58-112 | when every earlier proposal fails validation, the first proposal within the budget that passes its gates is committed |
| Tnr.TxnIgnoresLaterProposals | src/coding_in_parallel/tnr.py:58-61 | proposals past the budget never influence the outcome or the repository |
| Tnr.TargetedPassNeverRolledBack | src/coding_in_parallel/tnr.py:97-109 | passing targeted tests end the attempt, and a commit then reports mu 0 |
| Tnr.WorseMuRolledBack | src/coding_in_parallel/tnr.py:83-88 | without targeted tests, a worse mu is rolled back with its log line |
| Tnr.PaddingLinesNeverCommits | src/coding_in_parallel/tnr.py:63-70 | as written, every transaction with a proposal raises TypeError before touching the repository; the corrected one can commit |
| Types.SpanFromFields | src/coding_in_parallel/planner.py:74-81 | a span needs "file": without it the result is KeyError("file"); any other failure is a KeyError or an unrepresentable value |
| Types.SpanFilesMember | src/coding_in_parallel/tnr.py:47 | `{span.file for span in spans}` holds exactly the spans' files |
| Config.FilterKwargsGet | src/coding_in_parallel/config.py:12-13 | after filtering, a key is found only when allowed, with its value from the mapping |
| Config.FilterKwargsIgnoresUnknown | src/coding_in_parallel/config.py:12-13 | an unknown key does not change the filtered mapping |
| Json.GetSnoc | src/coding_in_parallel/config.py:12-13 | adding a field does not change what an earlier key finds; the new key is found only when no earlier field has it |
| Config.DefaultsWhenNothingConfigured | src/coding_in_parallel/config.py:22-105 | an empty mapping, a missing file and an empty document give the defaults, whose values are those of the records |
| Config.LoadRejectsNonMapping | src/coding_in_parallel/config.py:102-104 | a present document is rejected iff it is non-empty and not a mapping |
| Config.FromDictNeverValueError | src/coding_in_parallel/config.py:74-90 | `from_dict` raises no ValueError of its own |
| Config.FromDictIgnoresUnknownSection | src/coding_in_parallel/config.py:74-90 | a top-level key that is not a section name is ignored |
| Config.FromDictIgnoresUnknownSearchKey | src/coding_in_parallel/config.py:75 | a search key not declared by `SearchConfig` is ignored |
| Config.ConfiguredMaxSteps | src/coding_in_parallel/config.py:75 | a configured `max_steps` is the one used |
| AstIndex.LookupSymbol | src/coding_in_parallel/ast_index.py:22-23 | the spans recorded for a symbol, none for an unknown one |
| AstIndex.LookupCalls | src/coding_in_parallel/ast_index.py:25-26 | the call sites recorded for a name, none for an unknown one |
| AstIndex.WindowStart | src/coding_in_parallel/ast_index.py:30 | the start is `start_line - 1 - padding` clamped at 0 |
| AstIndex.WindowEnd | src/coding_in_parallel/ast_index.py:31 | the end is `end_line + padding` capped at the line count |
| AstIndex.Slice | src/coding_in_parallel/ast_index.py:28-32 | a file missing from the cache is a KeyError, and the only error |
| AstIndex.SliceWindow | src/coding_in_parallel/ast_index.py:28-32 | inside the file, the slice is the window's lines concatenated |
| AstIndex.SliceEmptyWindow | src/coding_in_parallel/ast_index.py:28-32 | a window whose end does not pass its start gives "" |
| AstIndex.SliceNegativeEnd | src/coding_in_parallel/ast_index.py:28-32 | for any window whose end is negative, the slice is the lines from the start up to that many lines before the end of the file, or "" when that range is empty |
| AstIndex.SliceBeforeFirstLine | src/coding_in_parallel/ast_index.py:28-32 | lines 1 to -1 of a two-line file give its first line |
| AstIndex.SliceWholeFile | src/coding_in_parallel/ast_index.py:28-32 | a window covering the whole file gives back its text |
| AstIndex.CallName | src/coding_in_parallel/ast_index.py:53-59 | a name gives its id, an attribute its attr, anything else nothing |
| Proposer.SymbolSuffix | src/coding_in_parallel/proposer.py:24 | the symbol part is empty exactly when there is no symbol or it is "" |
| Proposer.SpanLines | src/coding_in_parallel/proposer.py:22-27 | one rendered line per span, in order |
| Proposer.SpanSummaryLines | src/coding_in_parallel/proposer.py:21-28 | the summary's lines are the span lines, or the single placeholder when there are none |
| Proposer.SpanLineSymbol | src/coding_in_parallel/proposer.py:24-27 | the line ends "(node_type)" or "(node_type symbol)" depending on the symbol |
| Proposer.ContextBlocks | src/coding_in_parallel/proposer.py:40-42 | one "FILE: f\n" block per context file, in order |
| Proposer.ContextTextPlaceholder | src/coding_in_parallel/proposer.py:46 | the placeholder appears iff there is no context file; otherwise the text starts with the first block |
| Proposer.ShapeItem | src/coding_in_parallel/proposer.py:60-71 | an item is accepted iff it is a dict with a string "unified_diff" (and a representable step id), and becomes that proposal |
| Proposer.ShapeItems | src/coding_in_parallel/proposer.py:58-72 | all items are accepted iff each is well formed, giving one proposal per item in order |
| Proposer.ProposeRejectsNonList | src/coding_in_parallel/proposer.py:56-57 | a reply that decodes to something other than a list is a ValueError |
| Proposer.ProposeShapes | src/coding_in_parallel/proposer.py:31-72 | at most `diffs_per_step` proposals (when it is non-negative), from the first items in order, with their diff, step id (default: the step's) and rationale; accepted iff each kept item is well formed |
| Proposer.ProposeEmptyReply | src/coding_in_parallel/proposer.py:53 | an empty reply gives no proposals |
| Investigator.RawCandidates | src/coding_in_parallel/investigator.py:40-47 | a list is taken as is, a dict's "candidates" (default []) must be a list, anything else is a ValueError |
| Investigator.RecallSpan | src/coding_in_parallel/investigator.py:56-68 | a span that is not an object is a ValueError; other failures are key or shape errors |
| Investigator.CandidateOf | src/coding_in_parallel/investigator.py:49-76 | a non-object candidate or a non-list "spans" is a ValueError |
| Investigator.RecallFrom | src/coding_in_parallel/investigator.py:48-77 | one candidate per raw item |
| Investigator.RecallCandidates | src/coding_in_parallel/investigator.py:26-77 | a non-empty reply that is not JSON is the non-JSON ValueError; every failure is a ValueError or KeyError (or a value the model cannot represent) |
| Investigator.RecallEmptyReply | src/coding_in_parallel/investigator.py:37 | an empty reply holds no candidates |
| Investigator.RecallListOrObject | src/coding_in_parallel/investigator.py:40-43 | a bare list and a dict holding it under "candidates" give the same candidates |
| Investigator.RecallRejectsScalars | src/coding_in_parallel/investigator.py:44-45 | a reply decoding to a scalar is refused |
| Investigator.RecallRejectsNonObject | src/coding_in_parallel/investigator.py:49-51 | a candidate that is not an object fails the recall, unless an earlier item failed first |
| Investigator.RecallDefaultIds | src/coding_in_parallel/investigator.py:71 | a candidate without an id is "cand-" + its 1-based position |
| Investigator.SetDefault | src/coding_in_parallel/investigator.py:93 | `setdefault` keeps an existing key, adds a missing one, and changes no other key |
| Investigator.ProbeAll | src/coding_in_parallel/investigator.py:84-95 | probing keeps the number of candidates |
| Investigator.Probe | src/coding_in_parallel/investigator.py:80-95 | the `probe` loop computes `ProbeAll` |
| Investigator.ProbeKeepsCandidates | src/coding_in_parallel/investigator.py:84-95 | each candidate in order is its own probed version |
| Investigator.ProbeOneEffect | src/coding_in_parallel/investigator.py:92-94 | only the evidence changes: "probe" is set, but only where absent, and no other key changes |
| Investigator.ProbeFailsOnNonJson | src/coding_in_parallel/investigator.py:91-92 | any candidate whose reply is not JSON makes probing fail |
| Investigator.SpanNodes | src/coding_in_parallel/investigator.py:104-115 | one suspect per span of a candidate |
| Investigator.AllNodesPairs | src/coding_in_parallel/investigator.py:101-115 | the suspects are exactly one node per (candidate, span) pair, as many as there are spans |
| Investigator.Insert | src/coding_in_parallel/investigator.py:117 | insertion keeps the multiset |
| Investigator.SortDescSorted | src/coding_in_parallel/investigator.py:117 | the sort is by descending suspicion and is a permutation |
| Investigator.SortDescStable | src/coding_in_parallel/investigator.py:117 | the sort is stable: equal suspicions keep their order |
| Investigator.TopSuspectsRanked | src/coding_in_parallel/investigator.py:116-118 | the kept suspects are the min(k, total) most suspicious, most suspicious first, and none left out outranks one kept |
| Investigator.CandidatesToSuspects | src/coding_in_parallel/investigator.py:101-118 | the nested loops, sort and cut compute `TopSuspectsOf` |
| Investigator.MarkerNotSuspicious | src/coding_in_parallel/investigator.py:126 | the marker line is an added line and not a suspicious header |
| Investigator.ProbePatchIsDiff | src/coding_in_parallel/investigator.py:121-135 | the probe patch passes the shape check, changes exactly one line as it declares, touches only the suspect's file, and is named after the PCB and suspect |
| Investigator.ProbePatchText | src/coding_in_parallel/investigator.py:123-127 | the patch text is header, "@@" and marker line, each ending in a newline |
| Investigator.ProbeHunkPrepends | src/coding_in_parallel/investigator.py:121-127 | applied by hand, the marker hunk puts the comment line in front of the file |
| Investigator.NodeIndex | src/coding_in_parallel/investigator.py:156 | the index has exactly the suspects' ids as keys |
| Investigator.NodeIndexLast | src/coding_in_parallel/investigator.py:156 | an id maps to the last suspect carrying it (later duplicates overwrite earlier ones, as in a dict comprehension) |
| Investigator.Seeds | src/coding_in_parallel/investigator.py:157-159 | one PCB per suspect |
| Investigator.StepFacts | src/coding_in_parallel/investigator.py:162-185 | a loop pass pairs its sandbox create with a cleanup, answers its gain, and counts a probe only when it ran |
| Investigator.StopFacts | src/coding_in_parallel/investigator.py:162-168 | a final question to the scheduler adds no probe and no sandbox |
| Investigator.RunInvestigations | src/coding_in_parallel/investigator.py:138-187 | at most max_probes probes; every sandbox is cleaned up; every gain is answered by preempt (gain ≤ 0) or boost; suspects are published and seeded first; stopping early means the scheduler ran out or named an unknown suspect; the board holds one patch per probe run, built from the PCB the scheduler picked and the suspect it names, and the evidence of each run's artifacts in order (`Collected`); the whole result is `ProbeFrom` from the seeded trace |
| Investigator.ProbeLoop | src/coding_in_parallel/investigator.py:161-185 | the `while` loop computes `ProbeFrom`, its board or escaped error and its trace |
| Investigator.ProbeFromTracked | src/coding_in_parallel/investigator.py:161-185 | the loop keeps the seeds at the head of the trace, cleans up every sandbox it creates, answers every gain with preempt (gain ≤ 0) or boost, and runs at most `max_probes` probes |
| Investigator.ProbeFromBoard | src/coding_in_parallel/investigator.py:167-176 | the board keeps its suspects and holds one patch per probe run, built from the PCB the scheduler picked and the suspect `node_by_id` gives for it, with the evidence of each run's artifacts in order |
| Investigator.ProbeFromStopsEarly | src/coding_in_parallel/investigator.py:162-168 | a loop that ends with fewer than `max_probes` probes and no error ended because the scheduler had no PCB or named an unknown suspect |
| Planner.NonBlank | src/coding_in_parallel/planner.py:39 | the kept strings are non-blank |
| Planner.Kept | src/coding_in_parallel/planner.py:39 | one string is kept, stripped, only when non-blank |
| Planner.Coerce | src/coding_in_parallel/planner.py:36-51 | coercion fails only for shape reasons |
| Planner.FirstItem | src/coding_in_parallel/planner.py:40-49 | reading a list through its first element fails only for shape reasons |
| Planner.Finish | src/coding_in_parallel/planner.py:52-56 | building the understanding fails only for shape reasons |
| Planner.Understand | src/coding_in_parallel/planner.py:36-56 | the decoded reply fails only for shape reasons |
| Planner.Synthesize | src/coding_in_parallel/planner.py:22-56 | synthesize never fails on a non-JSON reply; only a decoded reply's shape can make it fail |
| Planner.SynthesizeEmptyReply | src/coding_in_parallel/planner.py:31 | an empty reply gives an empty understanding |
| Planner.SynthesizeNotJson | src/coding_in_parallel/planner.py:32-34 | a non-JSON reply becomes the stripped summary |
| Planner.SynthesizeRejectsScalars | src/coding_in_parallel/planner.py:52-56 | a decoded scalar has no `get` and fails |
| Planner.SynthesizeFirstNotObject | src/coding_in_parallel/planner.py:40-49 | a list that is not all strings and starts with a non-dict gives that item's "summary" (its string form) with empty lists, or fails when it has none |
| Planner.UnderstandFirstObject | src/coding_in_parallel/planner.py:40-47 | a list starting with a dict is read as that dict |
| Planner.UnderstandSummaryOnly | src/coding_in_parallel/planner.py:52-56 | a dict with only a summary gives that summary and empty lists |
| Planner.UnderstandOneString | src/coding_in_parallel/planner.py:38-39 | a one-string list gives that string, stripped |
| Planner.NonBlankSnoc | src/coding_in_parallel/planner.py:39 | the kept strings of a longer list extend those of the shorter one |
| Planner.CoerceStrings | src/coding_in_parallel/planner.py:38-39 | a list of strings becomes their "; "-joined non-blank summary |
| Planner.UnderstandBlankString | src/coding_in_parallel/planner.py:39 | blank strings change nothing |
| Planner.Plan | src/coding_in_parallel/planner.py:59-94 | an empty reply is no steps, a non-JSON reply is a decode error, and a list gives one step per item iff every item is well formed |
| Planner.PlanDefaultIds | src/coding_in_parallel/planner.py:86 | a step without an id is "step-" + its 1-based position |
| Planner.DefaultStepIdsDistinct | src/coding_in_parallel/planner.py:86 | default step ids are pairwise distinct |
| Planner.LandmarkItems | src/coding_in_parallel/planner.py:120-129 | a JSON reply is read as is |
| Planner.Head | src/coding_in_parallel/planner.py:131 | at most `max_landmarks` items are read |
| Planner.PlanLandmarks | src/coding_in_parallel/planner.py:97-155 | an empty reply gives no landmarks, and never more than `max_landmarks` |
| Planner.PlanLandmarksNoArray | src/coding_in_parallel/planner.py:122-129 | a non-JSON reply without "[" gives no landmarks |
| Planner.PlanLandmarksExtractsArray | src/coding_in_parallel/planner.py:122-127 | prose around an array is skipped: the text from the first "[" to the last "]" is read |
| Planner.PlanLandmarksDefaultIds | src/coding_in_parallel/planner.py:131-144 | min(max_landmarks, n) landmarks are read from an n-item list, and the k-th, when it has no id, is "lm-" + its 1-based position |
| Planner.LandmarksToSteps | src/coding_in_parallel/planner.py:158-173 | one step per landmark, in order, with its id, intent, spans and constraints, "landmark:"+test as outcome and "tests" as check |
| Controller.SplitWithoutSeparator | src/coding_in_parallel/controller.py:51 | an id without "::" splits into itself |
| Controller.SplitLastPiece | src/coding_in_parallel/controller.py:51-52 | `parts[-1]` ends the id and holds no "::"; a single piece is the whole id |
| Controller.TestNameIsTail | src/coding_in_parallel/controller.py:50-52 | the test name is the tail after the last "::", or the whole id when there is none |
| Controller.TestNames | src/coding_in_parallel/controller.py:46-54 | no collected name is empty |
| Controller.TestNamesFrom | src/coding_in_parallel/controller.py:46-54 | a name is collected iff it is the non-empty name of a non-empty failing id |
| Controller.LessIrreflexive | src/coding_in_parallel/controller.py:56 | string order is irreflexive |
| Controller.LessTransitive | src/coding_in_parallel/controller.py:56 | string order is transitive |
| Controller.LessTotal | src/coding_in_parallel/controller.py:56 | distinct strings are ordered one way or the other |
| Controller.InsertUnique | src/coding_in_parallel/controller.py:56 | inserting adds exactly the new name to the set |
| Controller.InsertUniqueSorted | src/coding_in_parallel/controller.py:56 | inserting keeps the list strictly sorted |
| Controller.SortedSet | src/coding_in_parallel/controller.py:56 | `sorted(set(names))` has exactly the names' elements |
| Controller.SortedSetSorted | src/coding_in_parallel/controller.py:56 | `sorted(set(names))` is strictly increasing (sorted, no duplicates) |
| Controller.StrictlySortedUnique | src/coding_in_parallel/controller.py:56 | a strictly sorted list is determined by its elements |
| Controller.SortedSetOfSameNames | src/coding_in_parallel/controller.py:56 | the sorted set depends only on the set of names |
| Controller.DeriveTestCmdShape | src/coding_in_parallel/controller.py:40-58 | the TaskContext's command unless targeted tests are on and a name exists; then `pytest -q -k "<names joined by ' or '>"` with the names strictly sorted and exactly those of the failing ids |
| Controller.DeriveTestCmdOrderFree | src/coding_in_parallel/controller.py:45-58 | reordering or repeating failing ids does not change the command |
| Controller.Rebind | src/coding_in_parallel/controller.py:231-236 | rebinding changes only the test command |
| Controller.RebindOnce | src/coding_in_parallel/controller.py:231-236 | rebinding twice is rebinding once, and the rebound command is the derived one |
| Controller.Numbered | src/coding_in_parallel/controller.py:31-33 | snippet line k is labelled with its 1-based file line start+k+1, right-aligned to width 4 |
| Controller.SnippetWindow | src/coding_in_parallel/controller.py:27-36 | a window inside the file shows exactly the padded span's lines, each under its number, after a "LINES a-b:" heading |
| Controller.SnippetsOfSpans | src/coding_in_parallel/controller.py:23-36 | an existing file gets snippets iff some span is on it |
| Controller.GroupedContents | src/coding_in_parallel/controller.py:22-36 | the grouping holds each existing file with spans once, with its snippets in span order |
| Controller.LoadContextContents | src/coding_in_parallel/controller.py:20-37 | the context lists each file once; a file is listed iff it exists and a span is on it; its text is its snippets joined by blank lines |
| Controller.ProbeBudget | src/coding_in_parallel/controller.py:116 | the probe budget is at least 1 and at least `diffs_per_step` |
| Controller.PlanBySynthesis | src/coding_in_parallel/controller.py:192-195 | the synthesised plan has at most `max_steps` steps |
| Controller.PlanByLandmarks | src/coding_in_parallel/controller.py:145-191 | the landmark plan has at most 3 and at most `max_steps` steps, each checked by "tests" with a "landmark:" outcome, and its understanding carries the failure summary and invariants with no dependencies |
| Controller.Prepare | src/coding_in_parallel/controller.py:83-196 | without landmarks the plan is `PlanBySynthesis`; a failing recall stops planning; with landmarks the plan is `PlanByLandmarks` of the combined failure |
| Controller.AttemptCount | src/coding_in_parallel/controller.py:238 | at least one main attempt, and at least `retries_per_step` |
| Controller.Finalists | src/coding_in_parallel/controller.py:244 | at least one finalist, and at least `finalists` |
| Controller.Shortlist | src/coding_in_parallel/controller.py:243-245 | the shortlist is the first at most `Finalists` proposals, all of them when there are fewer |
| Controller.Attempt | src/coding_in_parallel/controller.py:240-258 | one proposer call and, when its shortlist is non-empty, one transaction, as a function of the repository state, which stays valid; stated by `AttemptShape` |
| Controller.MainAttempts | src/coding_in_parallel/controller.py:238-261 | the main attempts as a function of the repository state, which stays valid; stated by `MainAttemptsShape` |
| Controller.Retry | src/coding_in_parallel/controller.py:263-280 | the retry as a function of the repository state, which stays valid; stated by `RetryShape` |
| Controller.RunStep | src/coding_in_parallel/controller.py:238-280 | one step's main attempts then its retry, as a function of the repository state, which stays valid; stated by `RunStepShape` |
| Controller.StepsFrom | src/coding_in_parallel/controller.py:227-281 | the step loop from step k on, loading each step's context and rebinding the TaskContext first, as a function of the repository state, which stays valid; stated by `StepsShape` and `StepsKeepHistory` |
| Controller.AttemptOn | src/coding_in_parallel/controller.py:240-258 | one attempt on the repository does what `Attempt` says |
| Controller.MainAttemptsOn | src/coding_in_parallel/controller.py:238-261 | the attempt loop does what `MainAttempts` says |
| Controller.RetryOn | src/coding_in_parallel/controller.py:263-280 | the retry on the repository does what `Retry` says |
| Controller.RunStepOn | src/coding_in_parallel/controller.py:238-280 | one step on the repository does what `RunStep` says |
| Controller.RunSteps | src/coding_in_parallel/controller.py:227-281 | the step loop does what `StepsFrom` says |
| Controller.RunController | src/coding_in_parallel/controller.py:61-307 | the transactions are those of the step loop over the plan; the baseline's history is kept; the final patch is `FinalPatch` of baseline..HEAD; each transaction reports a diff iff it committed; the plan is the synthesised or landmark plan |
| Controller.TxnKeepsHistory | src/coding_in_parallel/tnr.py:36-115 | a transaction keeps the commits before it |
| Controller.TxnReportsApplied | src/coding_in_parallel/tnr.py:112-115 | a finished transaction reports an applied diff iff it committed |
| Controller.StepsKeepHistory | src/coding_in_parallel/controller.py:227-281 | the step loop keeps the history it started from, so the baseline commit is still there for the final diff |
| Controller.AttemptShape | src/coding_in_parallel/controller.py:240-258 | one attempt makes one proposer call and adds a transaction iff the shortlist is non-empty; the logs are the last transaction's |
| Controller.MainAttemptsShape | src/coding_in_parallel/controller.py:238-261 | at least one and at most `AttemptCount` proposer calls and transactions; only the last transaction may have committed, so the loop stops at the first commit; the last logs are the last transaction's |
| Controller.RetryShape | src/coding_in_parallel/controller.py:263-280 | the retry runs (one call, at most one transaction) only when nothing committed and a last log is recoverable; otherwise nothing changes |
| Controller.RunStepShape | src/coding_in_parallel/controller.py:238-280 | a step makes 1 to AttemptCount+1 proposer calls and at most AttemptCount+1 transactions, only the last may commit, and a retry implies a recoverable last log |
| Controller.StepsShape | src/coding_in_parallel/controller.py:227-281 | every step of the plan is processed, each with at least one and at most AttemptCount+1 calls, and every transaction reports its diff iff it committed |
| Controller.StepsRebindOnce | src/coding_in_parallel/controller.py:229-236 | starting the step loop from the rebound context changes nothing |
| Controller.FinalPatchChoice | src/coding_in_parallel/controller.py:296-300 | the patch is the baseline..HEAD diff when non-empty; otherwise the last transaction's diff if it committed; any other patch is impossible |

## Left out

- I/O is left out: prompt files, `llm.complete`, `subprocess`, git itself, the YAML reader, logging (`logging.py`), the CLI (`main.py`) and `gates.py`. Their results are parameters of the model: reply strings, a `Parser` oracle for `json.loads`, and oracle functions of the working tree for `git apply`, numstat, the static checks and the targeted tests.
- `ast_index.build_index`, `_walk_python_files` and `_CallVisitor.visit_Call` are left out: they depend on Python's `ast` parser and a filesystem walk. The index they build is an input.
- The scheduler, blackboard, sandbox and runner (`probes/*`) and `combine.combine_to_failure_pattern` are left out: they are not part of this model. They are oracles, recorded as an event trace, and their MLFQ/UCB policies are not modelled.
- Investigator.RunInvestigations: a blackboard publish that happened before the runner raised is not captured. On an error the board is not returned at all.
- Concurrency is left out: the code is sequential.
- Floating point is left out: suspicion and landmark confidence are `real`.
- Directories and absolute paths in `_load_context` are left out: a span's file is a key of the working-tree map.
- Files are text only: binary reads and file encodings are not modelled.
- `vcs.final_patch`, `vcs.clean` and `stage_all` are not modelled separately: the core never calls the first two, and staging is part of `Vcs.CommitAll`.
- JSON values that Python would store unchecked but the model cannot type (a non-string `id`, say) are reported as a model-only `Unrepresented` error instead of being carried on.
- Json.PyInt: a string that still holds non-ASCII characters once stripped (Unicode digits such as "٣", which `int()` accepts) is reported as `Unrepresented` instead of being decided.
- Planner.PlanLandmarks: the row bounds the count only. A span's "start_line"/"end_line" and a "confidence" given as strings go through `Json.PyInt`/`Json.PyFloat` and so carry their gaps: strings of the forms those members decide convert as in Python, and a string Python would still accept beyond them (Unicode digits, an exponent, "inf") is reported as `Unrepresented`.
- Json.PyFloat: only plain decimals ("3", "-2.5", ".5", "1.") are decided. Exponents, underscores, "inf" and "nan" are reported as `Unrepresented`, as is non-ASCII text.
- Tnr.TxnCommitsFirstPassing: covers earlier proposals rejected by validation. An earlier proposal rejected by a gate reverts the tree to the checkpoint before the next one; that route is described by `Tnr.TxnFrom` but not stated as a lemma.
- Python 3.12's error when slicing a dict is not modelled: `plan_landmarks` on a JSON object is reported as a shape error.
- `Text.Lower` folds ASCII letters only: Unicode case folding is not modelled.
- Error messages that embed the decoder's exception text (`Investigator returned non-JSON output: ...`) keep only the fixed prefix.
- `probe` mutates candidates in place. The model returns new candidates, so aliasing between the input and output lists is not captured.
- The "git apply failed" branch of `txn_patch` (tnr.py:77-80) is unreachable. `apply_diff` catches git's `RuntimeError` itself, so the model has no such branch. The manual applier's errors escape as `Raised`.
- The second mu check of `txn_patch` (tnr.py:106-109) can never fire. The earlier check at 85-88 already rejects the same case, so the model has no branch for it.
- The planner's empty-list branch (planner.py:50-51) is unreachable: an empty list is a list of strings and takes the branch at 38-39.
- Vcs.NormalizeIdempotent: idempotence is proved only for text not ending in "\n\n", because `splitlines` loses one trailing blank line per pass. `Vcs.NormalizeLosesBlankLine` exhibits this.
- AstIndex.SliceEmptyWindow: covers non-negative window ends only. A negative end counts from the end of the file (`AstIndex.SliceNegativeEnd`).
- Investigator.ProbeHunkPrepends: this is proved for the marker hunk itself. The full route through normalisation and `git apply` of the probe patch is not proved end to end.
- Controller.LoadContextContents: states which files are listed and their texts. The order of the files (first appearance among the spans) is defined but not stated as a lemma.
- Controller.Prepare: the landmark branch's plan is stated for some failure pattern, not tied to the investigation's board. The board's content depends on the scheduler and runner oracles.
- Tnr.Mu: `git diff --numstat` compares the working tree with git's index, and the model has no index: the numstat oracle is given HEAD's tree and the working tree. This is exact once the run has committed or reverted (`git commit` after `git add -A` and `git reset --hard` both leave the index equal to HEAD, and `git apply` without `--index` leaves it alone), but changes staged before the run starts are not seen.
- Tnr.Baseline: inherits that gap. The measured `mu_pre` is the numstat of the working tree against HEAD, so a repository whose index differs from HEAD at the start gets a different `mu_pre` in the model than in git.
- Controller.Attempt: composes the corrected transaction `Tnr.Txn`. As written, `controller.py:249-254` calls `txn_patch` outside any `try`, so the `TypeError` of `tnr.py:69` (see "## Findings") would escape from the first step whose shortlist is not empty; the model instead runs the transaction to its verdict.
- Controller.RunController: built on `Controller.Attempt`, so it shows the run of the corrected program, not the as-written one that stops with `TypeError` at the first non-empty shortlist.
- Controller.RunController: the repository is a working tree plus a commit list. Git's object store, branches and the untracked files that `git clean -fd` removes are not modelled.

## Findings

| source | as written | input that shows it | evidently intended | confidence | as-written member | corrected member |
|---|---|---|---|---|---|---|
| src/coding_in_parallel/tnr.py:63-70 | `ensure_within_limits` is called with `padding_lines=`, which its signature (validate.py:40-47) does not declare, so the call raises `TypeError` | any transaction with at least one proposal (the action budget is never below 1) | validate the proposal with the parameters `ensure_within_limits` declares, then apply, gate and commit it | not executed | Tnr.PaddingLinesNeverCommits | Tnr.TxnCommitsFirstPassing |
