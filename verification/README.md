# GridSeak verified models

A Dafny 4.11 model of the algorithms GridSeak's answers rest on, with proofs of what those answers mean.
`dafny verify dfyconfig.toml` checks the whole project.

GridSeak builds a call graph of a repository and answers questions about it. Seven parts of it are modelled here, each
with the branches, constants and edge cases of the Rust source.

* **Audit planner and grading** (`CallGraph`, `Shuffling`, `AuditPlanner`, `Grading`, `RunSummary`, `Wilson`). A capped
  reverse breadth-first search finds a function's transitive callers, a seeded shuffle and a greedy rotation over three
  size bands pick tasks whose answers barely overlap, and a reply is graded against the answer key. The main result is
  that `Plan` only asks complete questions (the key is *the* set of transitive callers), that any two targets are
  independent in both directions although the code tests one, and that a short plan has a conflict with everything the
  bands offered, namely the first fifty askable functions of each in trial order.
* **Co-change signals** (`CommitWalk`, `CoChange`, `Ownership`). One pass over the commits fills three tables; two
  phases turn them into clusters. Two files are reported together exactly when enough visited commits list both.
* **Pull-request deletion check** (`MaskLexer`, `MaskLaws`, `Mentions`, `DeletionCheck`, `DeletionLaws`). The nested
  loops that blank out comments and literals refine a one-character-at-a-time lexer, also across lines; every reported
  line holds the removed name as a whole word in code; each of the four verdicts is characterised exactly.
* **SCIP index** (`RustSymbols`, `TraitLinks`, `ScipIndex`, `UseGraph`, `UseLaws`, `Multimaps`). The one-pass tables
  agree with a scan of all occurrences, implementing and being implemented stay converse, the bracket parser inverts
  printing, and the use graph pairs every resolvable use exactly once with a definition that is right for it.
* **Index cache** (`Sidecar`, `Framing`, `CacheProtocol`, `CacheSafety`, `CacheRuns`). Over every run of indexing,
  editing, copying trees, changing pins and losing files, a cache that counts as fresh was fingerprinted for this root,
  this version and these files, or the hash shows an explicit collision; and its index is the right one exactly when
  the moments at which index and sidecar originated, possibly at other roots, saw matching sources.
* **Edit-task selection** (`EditSelect`) and **budgeted context** (`ContextTrim`): a fair three-band merge that loses
  nothing, and a drop loop whose result is the largest affordable choice.

`Basics`, `Sorting`, `Text`, `Decimal`, `Ratios` hold shared facts: Rust's stable sort, string helpers, decimal
printing and parsing, and comparisons of fractions.

## Results about the code that are not what one would first expect

* The use graph keeps one document per normalized path. When two documents normalize alike, the pairs of the earlier
  one's `local` symbols are lost and nothing else is: `UseLaws.CompleteExactly` says when the answer is complete,
  `UseLaws.ReplacedDocumentLosesPairs` gives two such documents.
* A fresh cache status vouches for the files the sidecar was written about, not for the index beside it.
  `CacheRuns.FreshIndexRightExactly` and `CacheRuns.SplitIndexingRightExactly` say for every run when the two agree;
  leaving the root's files and the pin alone while indexing is enough (`CacheRuns.UndisturbedIndexingIsSafe`). An edit
  between the indexer's run and the sidecar (`CacheRuns.EditDuringIndexing`), or a copy of the index that fails
  (`CacheRuns.FailedCopy`, the source ignores the error), leaves an old index that counts as fresh.
* Indexing without interruption at one root is enough only while no tree from a less careful root is copied over it:
  the sidecar names the root by its path, so a copy that went elsewhere and came back is accepted
  (`CacheRuns.CopiedBack`, `CacheRuns.AtOnceRunsAreSafe`).
* The hashed byte framing is injective when the same files are readable on both sides (`Framing.FrameInjective`). Two
  unreadable files frame like one readable file with a suitable digest (`Framing.UnreadableCollides`).
* A sidecar field holding `|` does not survive the round trip; everything else does (`Sidecar.RoundTripExactly`).
* A reply can reach recall 1.0 exactly when every key location is one a reply can name: not in a directory grading
  ignores for Go targets and not written with a leading `./` (`Grading.PerfectReply`).
* The four outcome counts of a summary row add up to its runs exactly when no passing run carries an error
  (`RunSummary.OutcomesPartition`).
* `safe` also needs compiler evidence: with no compiler-proved call at base and something removed, the verdict is
  `unverified` even if nothing dangles (`DeletionLaws.SafeExactly`).

Where comments in the source and its code disagree the model follows the code: `extractor.rs:61-66` speaks of the
most-frequent-together files of a commit, the code takes the first 50 in path order; `pr_check.rs:3-7` says a symbol is
broken only when no function of its name is left at head, the code also says so, with a head index, for a bare use or a
use in a statically typed file.

## Model

| member | source | states |
|---|---|---|
| CallGraph.Closure | gridseak-cli/src/audit.rs:467-488 | Uncut, the result is the transitive callable callers of the seed, each once, nearest first, with the greatest distance as depth, on cyclic graphs too; cut, it has exactly cap + 1 genuine callers and the true set is larger than the cap |
| CallGraph.Expand | gridseak-cli/src/audit.rs:473-486 | Expanding one queue entry keeps the discovery order breadth-first and only ever adds to the seen set |
| CallGraph.CallersOfCaller | gridseak-cli/src/audit.rs:468-488 | The callers of a caller of a function are among that function's callers, apart from itself |
| Shuffling.SeedState | gridseak-cli/src/audit.rs:516-519 | The generator never starts in the absorbing state 0 |
| Shuffling.XorShift | gridseak-cli/src/audit.rs:520-525 | A generator that is not 0 never becomes 0 |
| Shuffling.Shuffle | gridseak-cli/src/audit.rs:526-528 | In place, every swap in range: the result is a function of seed and contents and a permutation of what was there |
| AuditPlanner.TestsDecide | gridseak-cli/src/audit.rs:532-541 | The checks made on the closure list decide exactly whether the true caller set qualifies for a band |
| AuditPlanner.Consider | gridseak-cli/src/audit.rs:530-546 | A function yields a candidate for a band exactly when it qualifies for it, and then with its complete key and depth; a cut closure fits no band |
| AuditPlanner.FillPools | gridseak-cli/src/audit.rs:529-546 | Each pool is the first 50 functions, in trial order, that qualify for its band |
| AuditPlanner.Choose | gridseak-cli/src/audit.rs:547-568 | Terminates; each pick is the first compatible candidate of the first band in rotation that has one; fewer than n picks mean no candidate anywhere in the pools is compatible |
| AuditPlanner.AcceptedMeansIndependent | gridseak-cli/src/audit.rs:551-557 | The one-directional acceptance test holds exactly when neither target calls the other, however indirectly, and the true caller sets share at most half of the smaller |
| AuditPlanner.PicksAreIndependent | gridseak-cli/src/audit.rs:547-568 | Any two picks of the rotation are independent in that sense |
| AuditPlanner.Plan | gridseak-cli/src/audit.rs:501-600 | End to end: every task's answer is the location of every transitive caller and of nothing else, all targets are pairwise independent, tasks come by band and size, and in a short plan each of the first 50 askable functions of every band conflicts with a target, which exhausts every band with no more than 50 |
| Grading.IndexByName | gridseak-cli/src/audit.rs:913-920 | The table lists, for each file and bare name, the key's places of that name in order |
| Grading.TallyReply | gridseak-cli/src/audit.rs:921-959 | The loop's bins are the credited places, the wrong entries and the unscored ones of the whole reply |
| Grading.Grade | gridseak-cli/src/audit.rs:903-984 | The score is the one defined on the reply as a whole; a reply without JSON is an error that does not pass |
| Grading.ScoresInUnit | gridseak-cli/src/audit.rs:960-971 | Credited places belong to the key, recall and precision lie in [0, 1], and each is 1 exactly when everything is credited, or something is and nothing is wrong |
| Grading.OrderIrrelevant | gridseak-cli/src/audit.rs:921-984 | Reordering a reply changes neither score, verdict nor the missed list |
| Grading.OneMoreEntry | gridseak-cli/src/audit.rs:921-984 | One more entry never lowers recall; a wrong one never raises precision and lowers it once something is credited; any other never lowers it |
| Grading.RepeatIrrelevant | gridseak-cli/src/audit.rs:948-954 | Listing a credited place again leaves the whole score unchanged |
| Grading.PerfectReply | gridseak-cli/src/audit.rs:903-984 | Recall 1 is possible exactly when every key place is reachable; then listing a non-empty key scores 1.0 and 1.0 and passes |
| RunSummary.Summarize | gridseak-cli/src/audit.rs:1026-1059 | One row per model and arm in key order, plain arm first, each summing up exactly its runs: outcome counts, minutes, cost and tokens |
| RunSummary.EveryRunCounted | gridseak-cli/src/audit.rs:1026-1038 | Over the rows, run counts, minutes, cost and tokens add up to those of all runs |
| RunSummary.OutcomesPartition | gridseak-cli/src/audit.rs:1040-1051 | The outcome counts exceed the runs by the passes that carry an error, so they add up exactly when there are none |
| Wilson.IntervalIsScoreTest | gridseak-cli/src/audit.rs:1009-1014 | A rate lies between the two bounds exactly when it is within 1.96 standard errors, under that rate, of the observed one |
| Wilson.BoundsBracketRate | gridseak-cli/src/audit.rs:1005-1019 | 0 <= low <= pass rate <= high <= 1, so the two clamps never act |
| Wilson.ShownRangeBrackets | gridseak-cli/src/audit.rs:1015-1018 | The rounded percents shown bracket the rounded pass rate within 0 to 100 |
| CommitWalk.ChangedFilesAscend | graphengine-git-signals/src/extractor.rs:473-571 | A commit's changed files are strictly ascending and exactly the paths of its diff |
| CommitWalk.Walk | graphengine-git-signals/src/extractor.rs:191-296 | After the walk the per-file, pair and set tables count exactly the visited commits |
| CommitWalk.CountPairs | graphengine-git-signals/src/extractor.rs:281-288 | The double loop raises exactly the pairs of distinct listed files, each by one |
| CommitWalk.SignalsAreTrue | graphengine-git-signals/src/extractor.rs:328-362 | A file is reported exactly when a visited commit changed it, with its number of commits and of authors, the whole days since the newest such commit, a dispersion in range that is 0 exactly for a sole author, and high confidence exactly on a full clone; the files counted as touched are the files reported |
| Ownership.CauchySchwarz | graphengine-git-signals/src/ownership.rs:28-35 | The square of the commit total is at most authors times squares, with equality exactly for equal shares |
| Ownership.DispersionRange | graphengine-git-signals/src/ownership.rs:22-37 | Dispersion lies in [0, 1 - 1/n], so the clamp never acts; 0 exactly when one author made every commit, 1 - 1/n exactly when all made equally many |
| CoChange.AssembleClusters | graphengine-git-signals/src/extractor.rs:364-439 | The clusters are, without repeats and in report order, the recurring file lists and the recurring pairs no such list shows |
| CoChange.ReportedExactly | graphengine-git-signals/src/extractor.rs:274-296 | Two files stand in a common cluster exactly when the visited commits whose clipped list holds both reach the threshold |
| CoChange.ClustersAreTrue | graphengine-git-signals/src/extractor.rs:387-438 | No two clusters have one file list, each list is ascending with at least two files, and its count reaches the threshold without exceeding the commits that hold all of them |
| CoChange.ExtractClusters | graphengine-git-signals/src/extractor.rs:146-318 | Walk and assembly together: the exact characterisation of reported pairs over the visited commits, distinct lists, report order |
| MaskLexer.CodeOnly | gridseak-cli/src/pr_check.rs:533-625 | The nested loops compute what the one-character-at-a-time lexer does, both the masked line and the block left open |
| MaskLexer.StrLoop | gridseak-cli/src/pr_check.rs:572-620 | The literal loop, with escapes, doubled braces, templates and f-string expressions, stays on the reference lexer's track |
| MaskLaws.ColumnsLineUp | gridseak-cli/src/pr_check.rs:530-533 | Every column shows its source character or a space, and only code and interpolated expressions show anything |
| MaskLaws.PlainCode | gridseak-cli/src/pr_check.rs:621-622 | Text without comment or quote characters is shown as it stands |
| MaskLaws.BlockCloses | gridseak-cli/src/pr_check.rs:543-554 | An open block hides everything up to and including its first close, after which code resumes |
| MaskLaws.BlockStaysOpen | gridseak-cli/src/pr_check.rs:543-554 | An unclosed block hides the rest of the line and stays open |
| MaskLaws.LiteralHidden | gridseak-cli/src/pr_check.rs:609-619 | Any stretch of literal text is hidden and leaves exactly the escape state its backslashes give |
| MaskLaws.LiteralCloses | gridseak-cli/src/pr_check.rs:572-620 | A literal is hidden up to its first quote that no active backslash escapes, and code resumes after it; in an f-string or template, up to there no expression opens |
| MaskLaws.DoubledBraceHidden | gridseak-cli/src/pr_check.rs:583-587 | `{{` in an f-string is hidden and opens nothing |
| MaskLaws.ExpressionOpens | gridseak-cli/src/pr_check.rs:578-592 | `${` in a template, unless escaped, and a single `{` in an f-string, even an escaped one, are hidden and start an expression one brace deep |
| MaskLaws.ExpressionShown | gridseak-cli/src/pr_check.rs:588-608 | An interpolated expression is shown up to the brace that balances its opening one, inner braces included; that brace is hidden, and the literal resumes as it was left |
| MaskLaws.ExpressionRunsOn | gridseak-cli/src/pr_check.rs:588-608 | An expression whose braces never balance is shown to the end of the text |
| MaskLaws.LinewiseIsWhole | gridseak-cli/src/pr_check.rs:414-419 | Masking line by line with the open block threaded through is masking the whole text |
| Mentions.WordColumns | gridseak-cli/src/pr_check.rs:642-659 | The columns are exactly those where the word stands as a whole identifier, ascending |
| Mentions.MentionsExact | gridseak-cli/src/pr_check.rs:407-435 | The mentions are, in source order, exactly the whole-word occurrences in masked code on the node's lines |
| Mentions.ReportedTextIsIdentifier | gridseak-cli/src/pr_check.rs:407-435 | The file's own text at every reported line and column is the identifier |
| Mentions.FindMentions | gridseak-cli/src/pr_check.rs:407-435 | The loop over the node's lines returns those mentions |
| DeletionCheck.Disambiguate | gridseak-cli/src/pr_check.rs:313-329 | In place, exactly the names repeated in their file on either side gain their declaration line, judged by the counts before renaming |
| DeletionCheck.JudgeCaller | gridseak-cli/src/pr_check.rs:143-175 | One caller is absent, updated or surviving as the scans, texts and indexes say |
| DeletionCheck.Check | gridseak-cli/src/pr_check.rs:97-226 | The whole check computes the report defined on the disambiguated scans |
| DeletionLaws.EveryPairAccounted | gridseak-cli/src/pr_check.rs:130-207 | Surviving callers plus callers updated in the change are exactly the pairs of a removed function and a compiler-proved caller that was not removed and is present at head |
| DeletionLaws.RemovalsCounted | gridseak-cli/src/pr_check.rs:117-140 | The removed functions are the base functions whose key head lacks, file-scope code apart; the report counts them, and those a compiler-proved, unremoved base caller calls |
| DeletionLaws.SafeExactly | gridseak-cli/src/pr_check.rs:209-217 | `safe` exactly when no removed function still has a caller naming it unresolved, and the base has a compiler-proved edge or nothing was removed |
| DeletionLaws.BrokenExactly | gridseak-cli/src/pr_check.rs:193-210 | `broken` exactly when some removed function still has such a caller and either head declares nothing of its name or, with a head index, such a caller uses it bare or in a statically typed file |
| DeletionLaws.OtherVerdictsExactly | gridseak-cli/src/pr_check.rs:209-217 | `unverified` exactly when nothing is openly broken, something was removed and the base has no compiler-proved edge; `review` exactly when nothing is openly broken, the base has such an edge and some removed function still has such a caller |
| DeletionLaws.SurvivorIsReal | gridseak-cli/src/pr_check.rs:157-172 | A reported survivor is an unresolved mention of the removed name at the line given: a whole word in masked code that the file spells out at that column, and a member access only when no bare use is left |
| DeletionLaws.SelfComparisonIsSafe | gridseak-cli/src/pr_check.rs:97-226 | Comparing a scan with itself reports `safe`, nothing removed, no findings |
| DeletionLaws.HeaderEditIsNoRemoval | gridseak-cli/src/pr_check.rs:313-329 | Editing the declaration of a name unique in its file on both sides never counts as a removal |
| RustSymbols.BracketGroups | graphengine-scip-adapter/src/index.rs:597-624 | The right-to-left loops compute the recursive reading of trailing bracket groups, or none |
| RustSymbols.ParseInvertsPrint | graphengine-scip-adapter/src/index.rs:595-624 | Parsing gives a prefix and groups exactly when the text is their printing and they are well formed: prefix not ending in `]`, backticks balanced, no `[` outside them |
| RustSymbols.ImplOwnerExactly | graphengine-scip-adapter/src/index.rs:567-579 | An owner is read as a trait impl exactly when it prints a prefix ending in `impl#` with a type and a trait group, and then with that trait's bare name |
| RustSymbols.ImplSymbolRead | graphengine-scip-adapter/src/index.rs:547-593 | Every well-formed trait-impl symbol is classified with its trait and its method, escaped or plain |
| RustSymbols.DeclSymbolRead | graphengine-scip-adapter/src/index.rs:547-593 | Every well-formed trait-method declaration is classified with its trait and its method |
| TraitLinks.LinkRustTraitImpls | graphengine-scip-adapter/src/index.rs:481-533 | Recorded relationships stay; any other method is linked exactly when it is a trait declaration that fans out and has defined implementations, to the sorted list of all of them; the two tables stay converse |
| TraitLinks.FanOutIsDetermined | graphengine-scip-adapter/src/index.rs:481-533 | The links do not depend on the order hash tables are read in |
| ScipIndex.FromIndex | graphengine-scip-adapter/src/index.rs:120-192 | Loading fails exactly without a project root; otherwise every table is what a scan of the documents gives |
| ScipIndex.EntryOrder | graphengine-scip-adapter/src/index.rs:633-650 | Loading permutes a document's occurrences: into a stable order by start when every range decodes, by symbol when none does |
| ScipIndex.TablesAgreeWithScan | graphengine-scip-adapter/src/index.rs:311-345 | The definitions of a symbol are every decodable definition occurrence in load order, for none, one or many; its references every other decodable occurrence |
| ScipIndex.ImplementationsConverse | graphengine-scip-adapter/src/index.rs:320-337 | A method is listed under an interface as often as the interface is listed under the method |
| UseGraph.NearestIsNearest | graphengine-scip-adapter/src/index.rs:450-467 | The nearest definition is one of them, in the use's file if any is, else sharing a longest leading path with it |
| UseGraph.ReferenceOccurrences | graphengine-scip-adapter/src/index.rs:347-413 | In whatever order hash tables are read, the pairs are those of all non-local uses and of the local uses in the documents kept |
| UseLaws.EveryUseOnce | graphengine-scip-adapter/src/index.rs:352-413 | Each decodable use whose symbol is defined, or anchored at an implementation of an external trait, gives exactly one pair, in order; no other use gives any |
| UseLaws.PairsAreTrue | graphengine-scip-adapter/src/index.rs:352-432 | Every pair has one symbol on both sides; locals stay within one document; a repeated rust-analyzer symbol goes to its nearest definition, any other to the last, an undefined trait method to its first implementation |
| UseLaws.CompleteExactly | graphengine-scip-adapter/src/index.rs:352-413 | The answer equals the naive scan exactly when no replaced document held a pair of locals |
| UseLaws.CompleteWhenDistinct | graphengine-scip-adapter/src/index.rs:352-413 | With distinct normalized paths the answer equals the naive scan |
| UseLaws.ReplacedDocumentLosesPairs | graphengine-scip-adapter/src/index.rs:175-175 | Two documents with paths `./a` and `a` show the loss |
| Sidecar.ParsesExactly | graphengine-scip-adapter/src/fingerprint.rs:239-251 | A line parses to a fingerprint exactly when, trimmed, it is the tag and its bar-free fields in order with a number in range last |
| Sidecar.RoundTripExactly | graphengine-scip-adapter/src/fingerprint.rs:35-46 | What was written is read back exactly when no text field contains the separator |
| Sidecar.OtherFormatsRejected | graphengine-scip-adapter/src/fingerprint.rs:239-243 | Only lines with exactly five separators parse, so no four-field line does |
| Framing.Feed | graphengine-scip-adapter/src/fingerprint.rs:171-181 | The hasher is fed the version line and one frame per file |
| Framing.FrameInjective | graphengine-scip-adapter/src/fingerprint.rs:171-181 | Equal bytes together with equal readability mean equal version, paths and digests, and conversely |
| Framing.UnreadableCollides | graphengine-scip-adapter/src/fingerprint.rs:177-180 | Without that, two unreadable files frame like one readable file |
| Framing.HashFiles | graphengine-scip-adapter/src/fingerprint.rs:191-212 | At most eight workers; the chunked result is the sequential one in order exactly when no worker panics |
| CacheSafety.FreshExactly | graphengine-scip-adapter/src/fingerprint.rs:111-143 | Fresh exactly when there is an index and a sidecar this program wrote whose version, root hash and file hash are the current ones |
| CacheSafety.MatchingIsSame | graphengine-scip-adapter/src/fingerprint.rs:163-189 | Matching hashes mean the same root, version and sorted path and digest list, or an explicit collision |
| CacheSafety.FreshMeansCurrent | graphengine-scip-adapter/src/fingerprint.rs:111-143 | Over every run of the steps, fresh implies that the sidecar is about the current root, version and files, in that sense |
| CacheSafety.SameDigestsSameFiles | graphengine-scip-adapter/src/fingerprint.rs:191-193 | Equal path and digest lists mean equal files, unless two contents collide |
| CacheRuns.RunIsTraced | graphengine-scip-adapter/src/provisioning/mod.rs:465-485 | Over every run, each output, cached index and sidecar is about the sources present at the one moment and root that tracing it back through the steps gives |
| CacheRuns.AtOnceRunsAreSafe | graphengine-scip-adapter/src/provisioning/mod.rs:465-485 | Over every run that indexes at once at some trusted roots, copies trees onto those only from one another and does anything elsewhere, a fresh index at a trusted root was generated for the current root, version and files |
| CacheRuns.CopiedBack | graphengine-scip-adapter/src/fingerprint.rs:111-143 | A run that indexes only at once at a root, and still holds a wrong index there that counts as fresh, because a tree came back from another root |
| CacheRuns.FreshIndexRightExactly | graphengine-scip-adapter/src/fingerprint.rs:111-143 | Over every run, the index of a fresh cache matches the current sources exactly when the two moments found by tracing index and sidecar back through copies, the indexer's run and the sidecar's writing, saw sources with matching hashes; equal sources are enough |
| CacheRuns.WriteRightExactly | graphengine-scip-adapter/src/provisioning/mod.rs:479-483 | In any run whose last write to the cache is a sidecar, a fresh index is right at the end exactly when the cached index was right just before that write |
| CacheRuns.SplitIndexingRightExactly | graphengine-scip-adapter/src/provisioning/mod.rs:465-485 | In any run that ends with the three indexing steps, other steps between them, and steps that leave the cache alone, a fresh index is right exactly when pin and file hash were the same at the indexer's run and at the sidecar's writing |
| CacheRuns.UndisturbedIndexingIsSafe | graphengine-scip-adapter/src/provisioning/mod.rs:465-485 | It is right whenever the steps between touch neither the root's files nor the pin |
| CacheRuns.FreshAfterIndexing | graphengine-scip-adapter/src/provisioning/mod.rs:465-485 | After any run, indexing at once makes the cache fresh |
| CacheRuns.EditDuringIndexing | graphengine-scip-adapter/src/provisioning/mod.rs:471-483 | A run in which an edit between copying the index and writing the sidecar leaves an old index that counts as fresh |
| CacheRuns.FailedCopy | graphengine-scip-adapter/src/provisioning/mod.rs:473-483 | A run in which a failed copy, whose error is ignored, leaves an old index that counts as fresh |
| CacheRuns.UnreadableFilesLookFresh | graphengine-scip-adapter/src/fingerprint.rs:174-181 | The framing collision carries over to the hashes compared |
| CacheProtocol.RunIsGood | graphengine-scip-adapter/src/fingerprint.rs:214-226 | Every step keeps: sidecars are in another format or were written by this program with bar-free versions |
| EditSelect.BestMethodExactly | gridseak-cli/src/audit_edit.rs:343-352 | The method chosen is the earliest changeable one with the most call sites; none exactly when none is changeable |
| EditSelect.UsableExactly | gridseak-cli/src/audit_edit.rs:339-355 | The usable pairs are exactly the interfaces with 1 to 12 implementations with their best method |
| EditSelect.Select | gridseak-cli/src/audit_edit.rs:336-391 | Sort, shuffle, split and merge: a permutation of the usable pairs, determined by candidates and seed |
| EditSelect.TakeTurns | gridseak-cli/src/audit_edit.rs:376-390 | The index loop is the band-by-band, round-by-round merge |
| EditSelect.SelectsFairly | gridseak-cli/src/audit_edit.rs:367-390 | At every prefix two bands differ by at most one unless the smaller is used up, and each band keeps its drawn order |
| EditSelect.CandidateOrderIrrelevant | gridseak-cli/src/audit_edit.rs:356-366 | When no two usable pairs share package and interface, the order candidates arrive in does not matter |
| ContextTrim.TrimSections | gridseak-cli/src/context_command.rs:426-464 | Kept sections stay in order, fit or at most one is left, never rank behind a dropped one, and no other choice of that kind within the budget keeps more |
| ContextTrim.PuttingBackExceeds | gridseak-cli/src/context_command.rs:441-449 | Putting back the dropped section that matters most exceeds the budget |
| ContextTrim.DropIndexMeans | gridseak-cli/src/context_command.rs:441-445 | The section dropped has the greatest rank, the last of equals |

## Left out

- Subprocesses, git and SQLite access, file walking, clocks and rendering: their results are parameters. In particular
  the commit walk takes decoded commits and errors, the deletion check takes loaded nodes, edges and file texts, and the
  wall-clock cutoff of the commit walk, which only turns the result into an error, is absent.
- Floating point: recall, precision, dispersion, minutes, cost and the interval are over the reals, and the square root
  of the interval is a parameter constrained to be one. Rounding of doubles is not modelled, and `hotspot_score` is left
  out.
- Counter widths: per-file, pair and set counts are natural numbers. They count visited commits, of which there are at
  most `commits_back`, so the saturating and wrapping 32-bit additions of the source differ only beyond 2^32 commits.
- Unicode tables (`is_alphabetic`, `is_alphanumeric`, `is_whitespace`) are parameters; where a result needs some fact
  about them (a backtick is not alphanumeric, a line break is not a letter) it is a stated requirement.
- Text shown to people: question wording, `flags_incomplete`, the JSON block search, the printed form of missed, extra
  and out-of-scope entries (the entries themselves are modelled), Markdown and HTML.
- ScipIndex.EntryOrder: promises no order when only some ranges of a document decode, because the comparator of
  `document_entry` is no consistent order then and Rust may produce any permutation; the model sorts by insertion with
  that comparator, and only load order depends on it.
- CacheRuns.AtOnceRunsAreSafe: covers roots whose indexing steps are not interrupted, because the source's three steps
  are not atomic; `CacheRuns.FreshIndexRightExactly` covers every run, `CacheRuns.SplitIndexingRightExactly` every run
  that splits them.
- Position queries of the SCIP index (`symbol_at_position`, `nearest_function_like_on_line_all`, `workspace_coverage`,
  `module_level_definitions`): short filters over one document, they would add easy members.
- `load_functions` and `load_owners` of the deletion check: building node names from database rows.
- The index cache has one language; `rust-analyzer` is taken from the path whatever its version, so a pin there names
  no real version. A directory walk and the indexer are each taken to see one state of the files.
- Hashing is an arbitrary function with 32-byte results, so nothing assumes it injective: theorems name the collision.
- Source paths with a NUL byte are excluded (`CacheProtocol.Clean`), as operating systems do.
- `priority.rs`, `trend.rs`, `workspace_delta.rs`, `confidence.rs`, `predicates.rs`, the servers and the report cache:
  short filters and sorts, or plumbing.
