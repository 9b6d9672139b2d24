# Models of codeguard's stateful cores

codeguard reviews a repository: it audits a baseline of accepted findings, keeps managed sections of agent instruction
files up to date, serves findings page by page over the Model Context Protocol (MCP), folds git history into change
metrics and secret findings, and lets a configuration state that a weight is really zero. This project models the parts
of it that carry state or an algorithm, in Dafny, and proves what they promise. Run `dafny verify dfyconfig.toml`.

Code that updates fields or loops over buffers is modelled by classes and methods with the same loops, each proved
against a specification function or predicate; the theorems are about those specifications. Concurrent code is modelled
as atomic steps, one per critical section or channel operation, and the theorems hold for every interleaving.

| files | what they model |
|---|---|
| `BaselineTiers`, `BaselineIndexes`, `BaselineAudit`, `BaselineReport`, `BaselineTheorems`, `BaselineRanks`, `BaselinePromise`, `BaselinePruning`, `BaselineFields` | matching baseline entries to findings in three tiers, the audit built on it, which entries go stale, pruning, and all of it read on the entries' fields |
| `BaselinePolicy` | the multiset comparison of two baselines |
| `UnifiedDiff`, `DiffHunks`, `PatchText`, `DiffMeaning`, `Scanning` | the line diff, its hunks, their text, and a patch applier that reads it |
| `Markers`, `MarkerSyntax`, `ManagedDocument`, `BlockParser`, `ContextRender`, `ContextBodies`, `ContextUpdate`, `ContextTheorems`, `ContextRoundTrip`, `ContextAcceptance`, `ContextRerun`, `ContextProposal`, `ContextLineEnds` | managed blocks: marker lines, parsing, rendering, refreshing in place with either line end, proposing |
| `FindingsQuery`, `FindingsView`, `FindingsMeaning`, `FindingsPaging`, `ReportCache` | filters, ordering, pages and cursors over a bounded cache of report snapshots |
| `ServerRequester`, `RequestOutcomes`, `ToolCalls`, `ToolReplies`, `SessionRegistry` | the MCP correlation and cancellation protocols, and the HTTP session table |
| `ChangeLog`, `ChangeRenames`, `ChangeBatch`, `ChangeMetrics`, `ChangeMeaning` | numstat lines and renames, the streaming change-metrics fold and the batch statistics it must equal |
| `GitLog`, `HistoryTrace`, `HistoryExact`, `HistoryLog`, `HistoryReport` | the secret scan of `git log -p -U0` |
| `ExplicitConfig`, `ExplicitWeights`, `ExplicitMeaning` | explicit zeros of configuration weights |
| `Ordering`, `Sequences`, `Text`, `Wrappers` | what the others share: string order and Go's sorts, duplicate-free lists, string helpers |

## Where the code and its promises part

* README.md:178-179 says that an entry stays active as long as one of its fingerprints matches a finding, with no
  one-to-one matching. The code matches one to one (`usedFindings`, internal/cli/baseline_audit.go:130, 172), so two
  copies of an entry and one finding leave one copy stale (`MatchingFingerprintMayBeStale`). `StaleIff` says from the two
  files alone which entries have a stale copy: at each of the three tiers, in order, the copy either has no fingerprint
  or comes, counting the entries offered there with its fingerprint from the lowest key, after as many entries as
  findings are offered with it. `PromiseKeptIff` says that the promise is kept exactly when no entry that shares a
  fingerprint with a finding is so outnumbered; `PromiseHoldsWithoutRivals` is one simple case in which none is.
* `UnifiedDiff` shows a header without hunks when two different texts have the same lines, which `UnifiedDiffText` shows to
  happen exactly when they differ in the newline at their end alone; otherwise the hunks turn the old lines into the new.
* `Update` accepts what `Render` wrote exactly when no rendered body has a marker line and the title, which may have more
  lines than one, is itself a document whose blocks are not named like sections (`RenderedAcceptedIff`, for all facts).
  Newlines in facts are how it fails: a top-level directory whose name has a marker on its second line, which the
  detector lists unchecked (`MarkedDirectoryRejected`), or a root directory so named, which then names the project
  (`MarkedTitleRejected`). Without newlines it never does (`NewlineFreeBodies`, `OneLineTitle`).
* `Update` need not accept what it wrote itself: it does, and then changes nothing, exactly when no managed block of the
  document gets a body with a marker line (`SecondUpdateIff`); `SecondUpdateRejected` exhibits a document.
* A page size of zero is accepted by the findings tools and makes no headway (`EmptyPageRepeats`).
* A cancellation can be lost when a JSON-RPC id is used again, be it while the first request is open
  (`RepeatedIdLosesCancellation`) or only after its reply has been written (`ReusedIdLosesCancellation`), because the end
  of the first call wipes the mark of the second. A client that never uses an id twice is safe (`FreshIdsAreCareful`,
  `CancelledCallsStaySilent`); `SilencedWhen` says exactly when a call is silenced, whatever ids the client uses.
* `git log --numstat` factors the common parts of the names out of a rename, as in `s/{a => b}/f`; the code then counts the
  path `b}/f` (`FactoredRenameExample`, in general `FactoredRenameCut`). Such a rename is counted under its new name only
  if nothing was factored out after all (`FactoredCountsNewNameIff`). `RenameCountsNewNameIff` says exactly which renames
  printed in full are read right, and `NumstatReadsBackIff` which other paths. A path that git quotes is counted under its
  quoted spelling.
* With git's default name prefixes, the secret scan misreads a log exactly when an added line begins with `++ `, which makes it look like a file header, or
  a file that gets lines has a name that git prints between quotes or that ends in a blank (`LogReadsBackIff`). A quoted
  name is reported as it is spelled, quotes and all (`QuotedNameMisread`), one that ends in a space without it
  (`BlankNameMisread`), and a disguised line not at all (`OneLineSeen`).
* The secret scan takes two findings for the same when rule, file and message joined by `|` agree. Without a `|` in rule ids
  and file names that is exactly when the three agree (`KeysAgreeIff`); with one, two different secrets can have one key, and
  the second is not reported (`BarsCollide`).

## Model

| member | source | states |
|---|---|---|
| BaselineTiers.EntryKeyInjective | internal/cli/baseline_audit.go:377-379 | entries without NUL bytes are told apart by their sort key |
| BaselineAudit.GroupByKey | internal/cli/baseline_audit.go:131-149 | grouping lists, under each nonempty fingerprint, exactly the positions not yet matched that carry it |
| BaselineAudit.MatchGroup | internal/cli/baseline_audit.go:150-174 | within a group the lowest entries meet the lowest findings, as many as both sides have, one to one |
| BaselineAudit.MatchBaselineEntries | internal/cli/baseline_audit.go:128-177 | the three loops produce a one-to-one matching whose pairs agree on the nonempty fingerprint of their tier, and every tier pairs off what the earlier ones left |
| BaselineFields.MatchedOn | internal/cli/baseline_audit.go:128-177 | a match at the exact, context or content tier is an equality of the nonempty fingerprint, context fingerprint or content fingerprint of the two records |
| BaselineFields.ExactFirst | internal/cli/baseline_audit.go:130-137 | a finding with the exact fingerprint of an entry that the exact tier did not match was used by another entry at that tier |
| BaselineFields.ContextSecond | internal/cli/baseline_audit.go:130-137 | one with its context fingerprint was used at the exact or context tier, if neither matched the entry |
| BaselineFields.ContentLast | internal/cli/baseline_audit.go:130-177 | and one with its content fingerprint at some tier, if the entry is left over |
| BaselineFields.KeyOrderIsFieldwise | internal/cli/baseline_audit.go:377-379 | entries meet findings in the order of their six fields, the first difference deciding |
| BaselineTheorems.MatchingIsMaximal | internal/cli/baseline_audit.go:128-177 | no unmatched valid entry and unused finding share a nonempty fingerprint at any tier |
| BaselineTheorems.ExactGroupKeptIff | internal/cli/baseline_audit.go:128-177 | all entries with an exact fingerprint are matched if and only if as many findings carry it |
| BaselineTheorems.ActiveIff | internal/cli/baseline_audit.go:128-177 | in terms of the matching: a valid entry stays active if and only if a finding that shares a nonempty fingerprint with it is not matched to another entry |
| BaselineTheorems.PromiseHoldsWithoutRivals | README.md:178-179 | one sufficient case: when no finding shares fingerprints with two valid entries, an entry is active if and only if one of its fingerprints matches |
| BaselineRanks.OutcomeIsMatched | internal/cli/baseline_audit.go:150-174 | what a tier matches is a function of what it is offered: of each entry, the copies whose rank under its fingerprint is within the findings there |
| BaselineRanks.LeftOverIff | internal/cli/baseline_audit.go:128-177 | a copy is left over by all tiers if and only if at each its fingerprint is empty or its rank exceeds the findings offered, all computed from the two multisets |
| BaselinePromise.StaleIff | internal/cli/baseline_audit.go:128-177 | exactly which entries have a stale copy, from the two files alone |
| BaselinePromise.PromiseKeptIff | README.md:178-179 | every entry that shares a fingerprint with a finding is active if and only if none of them is outnumbered |
| BaselinePromise.CopiesOutnumbered | README.md:178-179 | copies of one entry are outnumbered if and only if there are more of them than findings that equal it |
| BaselineTheorems.MatchingFingerprintMayBeStale | README.md:178-179 | of two copies of an entry and one finding, one copy is stale although its fingerprint matches |
| BaselineTiers.SettlementUnique | internal/cli/baseline_audit.go:128-177 | the multisets of entries and findings alone decide which entries each tier matches |
| BaselineTheorems.ReconciledSettles | internal/cli/baseline_audit.go:128-177 | every result of the index-based matching is such a settlement of multisets |
| BaselineTheorems.VerdictsFollowSettlement | internal/cli/baseline_audit.go:89-110 | how often an entry has a status is read off the settlement |
| BaselineTheorems.OrderIndependence | internal/cli/baseline_audit.go:84-177 | permuting entries or findings, the order of the maps and ties in the sorts change no verdict and no count |
| BaselineTheorems.CountsPartition | internal/cli/baseline_audit.go:84-114 | Before is the sum of Active, Stale and Invalid |
| BaselineReport.Audit | internal/cli/baseline_audit.go:84-114 | the audit lists each entry once with the status its match gives it, in key order, and counts the statuses |
| BaselineFields.RowReads | internal/cli/baseline_audit.go:84-114 | a row is invalid if and only if its entry's fingerprint is blank, and an active one lists one finding that shares the fingerprint of its tier |
| BaselineFields.CountsRead | internal/cli/baseline_audit.go:84-114 | each count is the number of entries with that status |
| BaselineReport.EntriesWithStatus | internal/cli/baseline_audit.go:183-199 | the entries with the wanted status, in order |
| BaselineFields.SelectedReads | internal/cli/baseline_audit.go:183-199 | row by row: a row with a wanted status contributes its entry in its place, and no other does |
| BaselineReport.PrunedEntries | internal/cli/baseline_io.go:32-45 | of an audit, pruning refuses invalid entries unless allowed, and else writes exactly the active (and allowed invalid) ones in key order |
| BaselineTiers.PruningPreservesSettlement | internal/cli/baseline_audit.go:128-177 | the matched entries settle among themselves exactly as they did in the full file |
| BaselineTheorems.PruningIsIdempotent | internal/cli/baseline_io.go:32-45 | auditing the pruned file against the same findings repeats every surviving verdict; nothing is stale |
| BaselineTheorems.SecondPruningChangesNothing | internal/cli/baseline_io.go:32-45 | pruning again writes the same entries in the same order |
| BaselinePruning.SelectedPermutation | internal/cli/baseline_audit.go:112 | sorting the audit changes neither which entries are kept nor how often |
| BaselinePruning.Prune | internal/cli/baseline_io.go:32-45 | the audit and the writing together: refused exactly when an invalid entry is not allowed, else the sorted survivors of the file's own rows |
| BaselinePruning.PruningTwiceWritesTheSame | internal/cli/baseline_io.go:32-45 | auditing and pruning what was written, against the same findings in any order, finds nothing stale and writes the same file |
| BaselineTheorems.SortedListingUnique | internal/cli/baseline_audit.go:112 | the unstable sort by key has one possible result |
| BaselinePolicy.MultisetDifference | internal/cli/baseline_policy.go:56-72 | the counting loop computes the multiset difference, in key order |
| BaselinePolicy.ComparePolicy | internal/cli/baseline_policy.go:22-54 | added and removed entries and exactly the violations that the policy calls for |
| BaselinePolicy.ProhibitedCount | internal/cli/baseline_policy.go:33-41 | an added entry is reported as often as it was added when some prohibited prefix begins its rule, and otherwise not |
| BaselinePolicy.ViolationOrder | internal/cli/baseline_policy.go:42-52 | growth is listed first, then the size of the file, then the prohibited entries in key order |
| BaselinePolicy.ChangesConserveEntries | internal/cli/baseline_policy.go:22-72 | comparison plus added is current plus removed, and no entry is both |
| BaselinePolicy.GrowthMeansNetAddition | internal/cli/baseline_policy.go:22-54 | the file grew if and only if more was added than removed |
| UnifiedDiff.FillTable | internal/codeguard/contextgen/unified_diff.go:41-54 | every cell of the table is the longest-common-subsequence recurrence of the two suffixes |
| UnifiedDiff.DiffLines | internal/codeguard/contextgen/unified_diff.go:41-78 | the walk emits the script the recurrence describes |
| UnifiedDiff.ScriptRelates | internal/codeguard/contextgen/unified_diff.go:55-78 | the script's two sides are the two files and it keeps exactly as many lines as the table says |
| UnifiedDiff.LcsIsLongest | internal/codeguard/contextgen/unified_diff.go:41-54 | the corner of the table is the length of a longest common subsequence |
| UnifiedDiff.ScriptIsMinimal | internal/codeguard/contextgen/unified_diff.go:41-78 | no script between the files uses fewer deletions and insertions |
| UnifiedDiff.DeletionsFirst | internal/codeguard/contextgen/unified_diff.go:55-78 | no addition is directly followed by a removal: where a change replaces lines, the old ones come first |
| DiffHunks.FindHunks | internal/codeguard/contextgen/unified_diff.go:84-99 | a position lies in a hunk if and only if it is within three of a change; hunks are ordered, in bounds and apart |
| DiffHunks.HunksUnique | internal/codeguard/contextgen/unified_diff.go:84-99 | that determines the hunks |
| DiffMeaning.ShownWhen | internal/codeguard/contextgen/unified_diff.go:84-99 | a line is shown if and only if it or one of the three lines before or after it is a change |
| DiffHunks.WriteHunk | internal/codeguard/contextgen/unified_diff.go:101-135 | a hunk's header counts and starts are those of its body, with the empty-side rule |
| DiffHunks.Diff | internal/codeguard/contextgen/unified_diff.go:19-30 | the hunks of a diff, applied to the old lines, give the new ones, and there are none exactly for equal lines |
| DiffHunks.PatchRoundTrip | internal/codeguard/contextgen/unified_diff.go:19-135 | applying the hunks by their headers to the old lines gives the new lines |
| DiffHunks.ReverseRoundTrip | internal/codeguard/contextgen/unified_diff.go:19-135 | applying them reversed to the new lines gives the old lines |
| DiffHunks.NoHunksIff | internal/codeguard/contextgen/unified_diff.go:84-99 | there are no hunks if and only if the lines are the same |
| PatchText.SameLinesIff | internal/codeguard/contextgen/unified_diff.go:32-39 | two texts have the same lines if and only if they are equal up to the newline at the end |
| PatchText.HunksReadBack | internal/codeguard/contextgen/unified_diff.go:101-135 | the printed hunks are read back exactly |
| PatchText.UnifiedDiffText | internal/codeguard/contextgen/unified_diff.go:19-30 | the text is empty for equal inputs, and else a header and hunks that read back and describe the change |
| Markers.MarkerReadsBack | internal/codeguard/contextgen/render.go:48-51 | a marker that is written is recognised |
| Markers.OrdinaryLine | internal/codeguard/contextgen/update.go:32 | a line that begins with neither a blank nor an angle bracket is no marker |
| MarkerSyntax.MarkerIff | internal/codeguard/contextgen/update.go:32 | a line is a marker if and only if it is blanks, `<!--`, blanks, the keyword, a gap, a name of letters, digits, `_` and `-`, blanks, `-->`, blanks and perhaps a carriage return |
| MarkerSyntax.ReturnIgnored | internal/codeguard/contextgen/update.go:32 | a carriage return at the end makes no difference |
| ManagedDocument.WellFormedParses | internal/codeguard/contextgen/update.go:46-79 | a document of distinct, well-delimited blocks parses to those blocks |
| ManagedDocument.ParsedIsWellFormed | internal/codeguard/contextgen/update.go:46-79 | whatever is accepted is such a document, and nothing of its text is lost |
| BlockParser.ParseBlocks | internal/codeguard/contextgen/update.go:46-79 | the loop with its byte offset yields the block ranges, or the error, of that parse |
| BlockParser.AcceptedRanges | internal/codeguard/contextgen/update.go:46-79 | accepted blocks are ordered, disjoint, distinctly named ranges that delimit their bodies |
| ContextRender.GroupedCommands | internal/codeguard/contextgen/render.go:122-142 | commands are listed by source in order of first appearance |
| ContextBodies.SourcesListed | internal/codeguard/contextgen/render.go:122-142 | the headings are the sources of the commands, each once |
| ContextBodies.SourcesInOrder | internal/codeguard/contextgen/render.go:122-142 | in the order of their first commands |
| ContextBodies.InvocationsInOrder | internal/codeguard/contextgen/render.go:122-142 | under each stand the invocations of its commands, in their order |
| ContextBodies.BodiesList | internal/codeguard/contextgen/render.go:144-204 | directories, entry points, tests and conventions have a line each, in order, that names them, or one line that asks for them when there are none |
| ContextRender.Render | internal/codeguard/contextgen/render.go:56-64 | a title, a notice and every managed section |
| ContextRender.BodiesPlain | internal/codeguard/contextgen/render.go:93-220 | facts without newlines render only lines that cannot be markers |
| ContextUpdate.Update | internal/codeguard/contextgen/update.go:84-128 | splicing with a cursor gives the document with every managed body refreshed, and sorts the block names by verdict |
| ContextLineEnds.LineEndsKept | internal/codeguard/contextgen/update.go:84-128 | for all facts and every text without carriage returns: updating it with `\r\n` for each newline gives its own update with `\r\n` for each newline, and the same lists or the same fault on the same line |
| ContextLineEnds.TurnedRenderingUpdated | internal/codeguard/contextgen/update.go:84-128 | updating a rendering so turned gives the other rendering so turned, and itself when the facts are its own |
| ContextLineEnds.BodyLineEnds | internal/codeguard/contextgen/update.go:66-110 | a refreshed body has `\r\n` line ends if and only if its begin line ends in `\r\n` |
| ContextLineEnds.ParseKept | internal/codeguard/contextgen/update.go:46-79 | turning the line ends changes neither the blocks nor the fault of a text |
| ContextLineEnds.CrlfJoins | internal/codeguard/contextgen/update.go:108-110 | lines joined by newlines become the same lines joined by `\r\n` |
| ContextTheorems.UpdateFrame | internal/codeguard/contextgen/update.go:84-128 | nothing changes outside the bodies, and a body changes if and only if its block is listed as changed |
| ContextTheorems.UpdatePartition | internal/codeguard/contextgen/update.go:84-128 | changed, unchanged and unknown partition the blocks found; changed, unchanged and missing the managed names |
| ContextTheorems.JudgedInOrder | internal/codeguard/contextgen/update.go:101-121 | the blocks with a verdict are listed in document order |
| ContextTheorems.UpdateIsIdempotent | internal/codeguard/contextgen/update.go:84-128 | as long as the facts render no marker line, which those without newlines never do, a second update of any accepted document changes nothing |
| ContextRerun.SecondUpdateIff | internal/codeguard/contextgen/update.go:84-128 | for any accepted document and facts: the second update is accepted if and only if no managed block in the document got a body with a marker line, and then it changes nothing |
| ContextRerun.SecondUpdateRejected | internal/codeguard/contextgen/update.go:84-128 | a document that an update writes and then rejects |
| ContextRoundTrip.UpdateOfRender | internal/codeguard/contextgen/update.go:84-128 | with a one-line title and bodies without marker lines, updating one rendering to other facts of the same name gives their rendering |
| ContextAcceptance.UpdateOfAccepted | internal/codeguard/contextgen/update.go:84-128 | whenever a rendering is accepted at all, updating it to other facts of the same name gives their rendering; unknown are exactly the blocks of the title |
| ContextRoundTrip.NewlineFreeBodies | internal/codeguard/contextgen/render.go:93-220 | without newlines in facts no body has a marker line |
| ContextAcceptance.RenderedAcceptedIff | internal/codeguard/contextgen/update.go:84-128 | for all facts: a rendering is accepted if and only if no rendered body has a marker line and the title reads as a document apart from the sections |
| ContextAcceptance.SectionsReadIff | internal/codeguard/contextgen/update.go:46-79 | below any text read so far, rendered sections are read if and only if their names are new and their bodies free of markers |
| ContextAcceptance.OneLineTitle | internal/codeguard/contextgen/render.go:56-64 | a one-line title always reads |
| ContextAcceptance.MarkedDirectoryRejected | internal/codeguard/contextgen/directories.go:73-102 | a top-level directory with a marker on the second line of its name makes the rendering unreadable |
| ContextAcceptance.MarkedTitleRejected | internal/codeguard/contextgen/name.go:19-26 | so does a project name with an end marker on its second line |
| ContextProposal.Proposal | internal/codeguard/contextgen/update.go:133-139 | the file, a newline if it lacks one, and every section with an overview heading |
| ContextProposal.ProposalIsUpToDate | internal/codeguard/contextgen/update.go:130-139 | a proposal for a file without markers keeps the file and is a document that updating leaves as it is |
| Ordering.StableSortIsStable | internal/cli/mcp_findings_view.go:209-229 | the stable sort is sorted, a permutation, and keeps ties in order |
| Ordering.StableOrderUnique | internal/cli/mcp_findings_view.go:206-229 | nothing else is, so the order behind every cursor is fully determined |
| FindingsQuery.FiltersConjoin | internal/cli/mcp_findings_query.go:162-175 | a finding passes a selection if and only if it passes each filter alone |
| FindingsMeaning.BlamesFirst | internal/cli/mcp_findings_query.go:150-175 | of the filters a finding fails, section, rule, level and path, the first is blamed |
| FindingsMeaning.LevelFilter | internal/cli/mcp_findings_query.go:169-231 | `fail` keeps exactly the findings whose trimmed, lower-cased level is fail, `warn` exactly those where it is warn or fail |
| FindingsMeaning.SectionFilter | internal/cli/mcp_findings_query.go:165-184 | a section filter keeps exactly the findings of the listed sections, by lower-cased, trimmed id |
| FindingsMeaning.RuleFilter | internal/cli/mcp_findings_query.go:186-206 | a rule entry that ends in a star keeps the rules with the prefix before it, one that ends in a dot those with itself as prefix, any other itself |
| FindingsMeaning.RulesFilter | internal/cli/mcp_findings_query.go:186-206 | a list of rule entries keeps what one of them keeps |
| FindingsMeaning.PathsFilter | internal/cli/mcp_findings_query.go:208-218 | a list of globs keeps the findings with a nonblank path that one of them matches |
| FindingsMeaning.QueryReads | internal/cli/mcp_findings_query.go:99-119 | a query may ask for no level, warn or fail and for no, low, medium or high confidence, in any case and padding, and is normalized to that word |
| FindingsMeaning.QuerySections | internal/cli/mcp_findings_query.go:87-97 | a query's sections keep the findings of the sections that one of its nonblank values reads as, whatever case and padding |
| FindingsMeaning.QuerySectionsKnown | internal/cli/mcp_findings_query.go:87-97 | a query is refused unless each nonblank value reads as a known section |
| FindingsMeaning.QueryRulesAndPaths | internal/cli/mcp_findings_query.go:49-70 | its rules and paths keep what one of their nonblank values keeps, trimmed |
| FindingsQuery.CleanStringList | internal/cli/mcp_findings_query.go:72-85 | the trimmed nonblank values, sorted, each once |
| FindingsQuery.CleanListUnique | internal/cli/mcp_findings_query.go:72-85 | the set of values determines the list |
| FindingsQuery.NormalizeSections | internal/cli/mcp_findings_query.go:87-97 | section filters become the sorted set of their keys, unless one is unknown |
| FindingsQuery.PageSize | internal/cli/mcp_findings_query.go:121-132 | negative sizes are refused, a missing one is 50, others are kept up to the ceiling of 500 and cut to it beyond |
| FindingsQuery.Normalize | internal/cli/mcp_findings_query.go:49-70 | when a query is accepted, which filters it becomes, and which fault is reported first |
| FindingsQuery.SameRequestSameSelection | internal/cli/mcp_findings_query.go:134-149 | order, repetition, padding, page size and verbosity leave the selection, hence its fingerprint, unchanged |
| FindingsView.CollectMatched | internal/cli/mcp_findings_view.go:148-180 | the matching findings in report order, and counts that explain every other one by the first filter it failed |
| FindingsView.FindingOrderIsPreorder | internal/cli/mcp_findings_view.go:209-229 | the comparison is a total preorder, as the sort requires |
| FindingsView.OrderedMatchesExactly | internal/cli/mcp_findings_view.go:112-132 | the list that pages index holds every matching finding as often as the report, and nothing else, in order |
| FindingsView.GravestFirst | internal/cli/mcp_findings_view.go:206-229 | grave before light, then certain before doubtful, then by path, line and rule |
| FindingsMeaning.OrderReads | internal/cli/mcp_findings_view.go:206-229 | no finding that reads fail comes after one that does not, none that reads warn after one that reads neither; among equal levels the sure before the doubtful |
| FindingsMeaning.TiesByFingerprint | internal/cli/mcp_findings_view.go:226-228 | findings that agree in everything else are in order of their fingerprints |
| FindingsView.TopRules | internal/cli/mcp_findings_view.go:231-258 | the ten most frequent rules with their counts and gravest levels, however the map is walked |
| FindingsMeaning.TallyReads | internal/cli/mcp_findings_view.go:231-247 | a rule's count is the number of its findings; its level reads fail if and only if one of them does, and warn if and only if one does and none fails |
| FindingsMeaning.TopRulesRead | internal/cli/mcp_findings_view.go:231-258 | so do the listed rules, the most frequent first, and a rule left out has no more findings than any of ten listed |
| FindingsView.PageFindings | internal/cli/mcp_findings_view.go:260-266 | the page from an offset, at most the limit, in the compact form |
| FindingsMeaning.ConfidenceShown | internal/cli/mcp_findings_view.go:269-272 | a finding is shown as high or low if and only if its confidence reads so, and else as medium |
| FindingsView.BuildFindingsResponse | internal/cli/mcp_findings_view.go:112-132 | a response is the requested page of the ordered matches, says whether more follow, names the most frequent rules, and accounts for every other finding by reason and by section |
| ReportCache.CursorRoundTrip | internal/cli/mcp_report_cache.go:105-121 | decoding accepts exactly the encodings of cursors with a scan id and a natural offset |
| ReportCache.PutRetains | internal/cli/mcp_report_cache.go:48-61 | evict, append, keep eight leaves the unexpired ones among the last eight puts |
| ReportCache.EvictTwice | internal/cli/mcp_report_cache.go:75-84 | evicting what an earlier eviction left is evicting from the start |
| ReportCache.Cache.Compact | internal/cli/mcp_report_cache.go:75-84 | the in-place compaction keeps the unexpired entries in order |
| ReportCache.Cache.EvictExpired | internal/cli/mcp_report_cache.go:75-84 | after an eviction the entries are the unexpired of the last eight puts |
| ReportCache.Cache.Append | internal/cli/mcp_report_cache.go:56-59 | appends an entry and on overflow copies the last eight |
| ReportCache.Cache.Put | internal/cli/mcp_report_cache.go:48-61 | a put extends the log by one entry and keeps the cache the image of the log |
| ReportCache.Cache.Get | internal/cli/mcp_report_cache.go:63-73 | finds an id if and only if its put is among the last eight and unexpired |
| ReportCache.FindsRecent | internal/cli/mcp_report_cache.go:63-84 | what is found is one of the last eight puts, made less than thirty minutes ago |
| ReportCache.Cache.ResolveCursor | internal/cli/mcp_report_cache.go:125-141 | the cursor's snapshot, or the first of the four faults that applies |
| ReportCache.ResolvesWhen | internal/cli/mcp_report_cache.go:125-141 | a cursor resolves only as the encoding of one of this tool and these filters whose snapshot is held; which fault means what |
| FindingsPaging.PagedFindings | internal/cli/mcp_findings_result.go:40-52 | a truncated page carries the cursor that continues it, and only such a page does |
| FindingsPaging.Findings.FindingsResult | internal/cli/mcp_findings_result.go:18-24 | a fresh scan is cached and answered with its first page; every cursor handed out names a cached scan and a finding to come |
| FindingsPaging.Findings.ResumeFindingsResult | internal/cli/mcp_findings_result.go:28-38 | a later page of the snapshot the cursor names, or a fault; cursors stay genuine |
| FindingsPaging.IssuedCursorResumes | internal/cli/mcp_report_cache.go:123-141 | an issued cursor gives exactly the next page of its own snapshot while that is among the last eight and under thirty minutes old, and an expiry error from then on |
| FindingsPaging.PagesArePrefix | internal/cli/mcp_findings_view.go:112-132 | pages of any sizes show a prefix of the ordered matches, each once, and all of them when no cursor is left |
| FindingsPaging.PositivePagesCover | internal/cli/mcp_findings_view.go:260-266 | with positive sizes the reading ends within as many further calls as findings matched, having shown each as often as the scan has it |
| FindingsPaging.EmptyPageRepeats | internal/cli/mcp_findings_query.go:121-132 | a page of size zero repeats its own cursor |
| ServerRequester.NextKeeps | internal/cli/mcp_client_requester.go:32-72 | every step keeps pending the list of calls in flight, buffers the first response of a waiting call, and routes responses by id |
| ServerRequester.IdsNeverReused | internal/cli/mcp_client_requester.go:32-38 | in every run no two calls have the same id, and a new id is not pending |
| ServerRequester.CallGetsFirstOwnResponse | internal/cli/mcp_client_requester.go:45-57 | a call ends only with the first response offered to it, sent under its own id, for good, and no other call ends with that response |
| RequestOutcomes.EndsAsItHappened | internal/cli/mcp_client_requester.go:32-57 | in every run: a call ends with a send failure if and only if its send failed, with a timeout if and only if its wait expired, with a response if and only if it received one, and with the latter two only after its request went out |
| ServerRequester.QuietMeansEmpty | internal/cli/mcp_client_requester.go:39-43 | with no call in flight nothing is pending |
| ServerRequester.DeliverNeverBlocks | internal/cli/mcp_client_requester.go:61-72 | a delivery can always finish, and a call still waiting for it can then receive |
| ServerRequester.StrayResponseIgnored | internal/cli/mcp_client_requester.go:61-67 | a response reaches a channel if and only if a call in flight has its id |
| ServerRequester.Requester.Begin | internal/cli/mcp_client_requester.go:33-38 | registering is the protocol step, on the object's counter and map |
| ServerRequester.Requester.Find | internal/cli/mcp_client_requester.go:61-67 | looking a response up is the protocol step |
| ServerRequester.Requester.Offer | internal/cli/mcp_client_requester.go:68-71 | the non-blocking send is the protocol step |
| ServerRequester.Requester.Receive | internal/cli/mcp_client_requester.go:51-53 | receiving is the protocol step |
| ServerRequester.Requester.End | internal/cli/mcp_client_requester.go:39-43 | unregistering is the protocol step |
| ToolCalls.NextKeeps | internal/cli/mcp_requests.go:27-116 | every step keeps cancelled keys exactly those last touched by a cancellation, active ones owned, and replies at most one |
| ToolCalls.SafeRuns | internal/cli/mcp_requests.go:27-116 | in every run cancelled keys are active, no call writes two replies, and both maps are empty when all calls are done |
| ToolReplies.RepliesTellTruth | internal/cli/mcp_requests.go:62-78 | in every run a call writes a result only after its tool has succeeded, and an error only after it has failed |
| ToolReplies.ReportsWhenAsked | internal/cli/mcp_requests.go:56-69 | in every run a call has sent its last progress message when it is checked if and only if it had a progress token |
| ToolCalls.SilencedWhen | internal/cli/mcp_requests.go:70-77 | a call is silenced if and only if a cancellation of its key was accepted and no call with that key started or finished since |
| ToolCalls.CancelledCallsStaySilent | internal/cli/mcp_requests.go:27-116 | when no call starts under a key that an unfinished call holds, a call for which a cancellation is sent before its check never replies, and any other has replied once when it is done; no such cancellation is ignored |
| ToolCalls.HitWhen | internal/cli/mcp_requests.go:94-102 | in such a run a call is marked if and only if a cancellation was sent for it in time |
| ToolCalls.FreshIdsAreCareful | internal/cli/mcp_requests.go:27-116 | every run of a client that never uses an id twice is such a run |
| ToolCalls.ReusedIdLosesCancellation | internal/cli/mcp_requests.go:105-110 | a run in which an id is used again after its reply was written, and the second call is cancelled in time and yet replies |
| ToolCalls.RepeatedIdLosesCancellation | internal/cli/mcp_requests.go:105-110 | a run in which two open calls share an id and a cancelled one replies |
| ToolCalls.Server.BeginCall | internal/cli/mcp_requests.go:35-39 | registering a call is the protocol step |
| ToolCalls.Server.HandleCancelled | internal/cli/mcp_requests.go:94-102 | accepting a cancellation is the protocol step |
| ToolCalls.Server.IsCancelled | internal/cli/mcp_requests.go:112-116 | the last check is the protocol step |
| ToolCalls.Server.FinishRequest | internal/cli/mcp_requests.go:105-110 | finishing is the protocol step |
| SessionRegistry.Registry.constructor | internal/cli/mcp_http_registry.go:17-19 | a new registry lists no session, and its log is empty |
| SessionRegistry.Registry.Create | internal/cli/mcp_http_registry.go:21-33 | the order lists exactly the sessions, each once; a full table loses its oldest; the order stays the one that the logged requests leave |
| SessionRegistry.Registry.Get | internal/cli/mcp_http_registry.go:35-43 | finds a session under a nonblank id that has one |
| SessionRegistry.Registry.Remove | internal/cli/mcp_http_registry.go:45-61 | removes one session from the map and the order, or nothing; the order stays the one that the logged requests leave |
| SessionRegistry.OrderIsCreationOrder | internal/cli/mcp_http_registry.go:21-61 | after any requests the sessions are listed in the order of their creation |
| SessionRegistry.ListsInCreationOrder | internal/cli/mcp_http_registry.go:11-61 | so they are in every registry, whose order is tied to its log of requests |
| SessionRegistry.NewestSurvive | internal/cli/mcp_http_registry.go:21-33 | creations alone leave the newest sessions |
| ChangeLog.NumstatReadsBackIff | internal/codeguard/history/change_metrics.go:216-251 | a numstat line reads back as the counts and path it was printed from if and only if the path is nonempty, trimmed, not `/dev/null`, and has neither tab nor arrow |
| ChangeLog.CommitReadsBack | internal/codeguard/history/change_metrics.go:129-143 | a commit line reads back as the trimmed subject that was printed after the hash and its NUL, or, without a NUL, after the marker |
| ChangeLog.CountsRead | internal/codeguard/history/change_metrics.go:230-239 | a count with a plus counts the same; a dash, other text and numbers beyond the machine's count as none |
| ChangeRenames.RenameCountsNewNameIff | internal/codeguard/history/change_metrics.go:241-251 | a rename printed in full is counted under the new name if and only if the old name is not blank and the new one ends in no blank, has no brace at an end and no further arrow |
| ChangeRenames.FactoredCountsNewNameIff | internal/codeguard/history/change_metrics.go:246-249 | a rename with its common parts factored out is counted under the new name if and only if nothing was factored out (and the name has no brace at an end and no further arrow) |
| ChangeRenames.FactoredRenameCut | internal/codeguard/history/change_metrics.go:246-249 | what is counted instead: the new middle, a brace and the suffix, without the directory before |
| ChangeRenames.LastSplits | internal/codeguard/history/change_metrics.go:246-249 | what follows the last arrow is what follows a given one if and only if none begins later |
| ChangeRenames.FactoredRenameExample | internal/codeguard/history/change_metrics.go:246-249 | one such line |
| ChangeBatch.CountsByPaths | internal/codeguard/history/change_metrics.go:150-170 | whether a commit counts depends on its set of paths alone, from one to two hundred |
| ChangeMeaning.GroupsRead | internal/codeguard/history/change_metrics.go:129-161 | a commit line opens a commit, which has the file lines up to the next; file lines before the first belong to none |
| ChangeMeaning.LastCountsHold | internal/codeguard/history/change_metrics.go:145-160 | of a path that a commit lists more than once the last counts hold |
| ChangeMeaning.RetainedRead | internal/codeguard/history/change_metrics.go:150-170 | a commit contributes, in its place, if and only if it lists from one to two hundred paths |
| ChangeBatch.TotalsBounded | internal/codeguard/history/change_metrics.go:178-197 | defect commits are at most commits, and commits at most all |
| ChangeBatch.CoChangesBounded | internal/codeguard/history/change_metrics.go:201-210 | co-change is symmetric and at most the commits of a path |
| ChangeMetrics.CountPartners | internal/codeguard/history/change_metrics.go:201-210 | every known partner is counted once more, new ones are stored while the cap allows |
| ChangeMetrics.Parser.Flush | internal/codeguard/history/change_metrics.go:163-214 | flushing adds the commit at hand to the report, unless it has no path or too many |
| ChangeMetrics.Parser.AddCommit | internal/codeguard/history/change_metrics.go:171-213 | the nested loops turn the summary of some commits into that of one more |
| ChangeMetrics.Parser.HandleLine | internal/codeguard/history/change_metrics.go:129-161 | after every line the parser holds the summary of the closed commits and the open one, or that it is too large |
| ChangeMetrics.ParseChangeMetrics | internal/codeguard/history/change_metrics.go:106-118 | the streaming report is the batch summary of exactly the commits that count |
| ChangeMetrics.StoredRelations | internal/codeguard/history/change_metrics.go:201-210 | the stored total is the smaller of the cap and the pairs that co-changed, and every stored count is exact |
| ChangeMetrics.ReportBounded | internal/codeguard/history/change_metrics.go:41-50 | churn is additions plus deletions, defect commits at most commits, partners are other listed paths |
| ChangeMeaning.TotalsRead | internal/codeguard/history/change_metrics.go:178-197 | a path's totals are the number of commits that touch it and of defects among them, and the sums of their added and deleted lines |
| ChangeMeaning.SubjectsRead | internal/codeguard/history/change_metrics.go:193-195 | its subjects are those of the commits that touch it, in order, without the empty ones |
| ChangeMeaning.SubjectsListed | internal/codeguard/history/change_metrics.go:193-195 | the first twelve of which are reported |
| ChangeMeaning.CoChangesRead | internal/codeguard/history/change_metrics.go:201-210 | two paths co-change as often as a commit touches both |
| GitLog.HeaderReads | internal/codeguard/history/history.go:29 | the start of the new side is read from every hunk header |
| HistoryExact.LogReadsBackIff | internal/codeguard/history/history.go:125-186 | every added line, up to carriage returns at its end, is seen with its commit, file and number if and only if none begins with `++ ` and every file that gets lines has a name printed plainly and not ending in a blank |
| HistoryExact.NameSeenIff | internal/codeguard/history/history.go:156-163 | exactly such a name comes through as it is |
| HistoryExact.PlainSeen | internal/codeguard/history/history.go:132-163 | a name printed plainly comes through without the blanks at its end |
| HistoryExact.QuotedSeen | internal/codeguard/history/history.go:156-163 | a quoted name comes through with its quotes and spelling |
| HistoryExact.OneLineSeen | internal/codeguard/history/history.go:125-186 | of a log that adds one line, what is seen: nothing of a disguised line, any other under the name that comes through |
| HistoryExact.QuotedNameMisread | internal/codeguard/history/history.go:156-163 | a log of one line in a file whose name has an accent, reported under the quoted spelling |
| HistoryExact.BlankNameMisread | internal/codeguard/history/history.go:132-133 | a log of one line in a file whose name ends in a space, reported under another name |
| HistoryTrace.HonestLogReadsBack | internal/codeguard/history/history.go:125-186 | with no disguised line, from any position on, every added line is read back under the name that comes through, and the commits are counted |
| HistoryLog.Parser.HandleLine | internal/codeguard/history/history.go:126-186 | the parser's fields follow that reading and its findings are the first of each key |
| HistoryLog.Parser.RecordAdded | internal/codeguard/history/history.go:166-186 | an added line of a named, unskipped file is scanned, and its new findings kept |
| HistoryReport.FindingsCarry | internal/codeguard/history/history.go:166-186 | what is found before repeats are dropped: exactly what the scanner finds in an added line of an unskipped file, with that line's file, number and commit |
| HistoryLog.Parser.SetFile | internal/codeguard/history/history.go:156-163 | a name line sets the file and whether it is skipped |
| HistoryLog.ReportedOnce | internal/codeguard/history/history.go:166-186 | each key is reported exactly once, with its first finding |
| HistoryReport.ReportedByFields | internal/codeguard/history/history.go:166-186 | without a `|` in rule ids and file names, the report holds of every rule, file and message that was found its first finding, and no two findings with the same three |
| HistoryReport.KeysAgreeIff | internal/codeguard/history/history.go:171 | two such findings count as the same if and only if rule, file and message agree |
| HistoryReport.BarsCollide | internal/codeguard/history/history.go:171 | two different findings with one key, of which only the first is reported |
| HistoryLog.ReadBoundedLine | internal/codeguard/history/history.go:105-123 | takes exactly one line off the stream and keeps its first 64 KiB |
| HistoryLog.ParseLog | internal/codeguard/history/history.go:85-103 | the report of a stream is that of its bounded lines |
| HistoryLog.PrintedLogScanned | internal/codeguard/history/history.go:85-186 | scanning the text of a log without disguised lines and with readable names, whose lines fit the buffer, finds what scanning its added lines finds, and counts its commits |
| ExplicitConfig.KeyIndex | internal/codeguard/core/config_explicit.go:32-40 | a field is found under its own key |
| ExplicitConfig.TablesDistinct | internal/codeguard/core/config_explicit_weights.go:16-28 | no key of either struct goes by the name of another field |
| ExplicitConfig.EncodingUnrepeated | internal/codeguard/core/config_explicit.go:148-178 | an encoding repeats no key, in whatever case |
| ExplicitConfig.RoundTripKeepsValues | internal/codeguard/core/config_explicit_weights.go:62-100 | encoding and decoding keeps every weight and makes explicit what was written |
| ExplicitConfig.RoundTripKeepsMeaning | internal/codeguard/core/config_explicit_weights.go:62-100 | the weights that count after defaults are the same with and without the round trip |
| ExplicitConfig.RiskScoringRoundTrip | internal/codeguard/config/defaults_rules.go:35-47 | so it is for risk scoring and its defaults |
| ExplicitConfig.ProductionRiskRoundTrip | internal/codeguard/config/defaults_rules.go:336-345 | so it is for production risk and any profile |
| ExplicitConfig.EmptyEncodingIffZero | internal/codeguard/core/config_explicit_weights.go:56-60 | exactly the unset structs encode to nothing, so omitting them loses nothing |
| ExplicitConfig.DefaultsOnce | internal/codeguard/config/defaults_helpers.go:39-43 | applying defaults twice is applying them once |
| ExplicitWeights.WeightConfig.UpdateExplicit | internal/codeguard/core/config_explicit.go:50-69 | sets or clears the bits of all keys, or none when one is unknown |
| ExplicitWeights.WeightConfig.ApplyDefaults | internal/codeguard/config/defaults_rules.go:35-47 | every weight that is zero and not stated takes its default, every other one stays |
| ExplicitMeaning.StatedWeight | internal/codeguard/core/config_explicit_weights.go:62-82 | end to end, in either format: a weight that an object states under its key, zero included, is that weight after the defaults |
| ExplicitMeaning.UnstatedWeight | internal/codeguard/core/config_explicit_weights.go:62-82 | one that it does not state is the default |
| ExplicitMeaning.NullIsUnstated | internal/codeguard/core/config_explicit.go:89-146 | a null states nothing, nor in YAML a key in another case |
| ExplicitMeaning.JsonIgnoresCase | internal/codeguard/core/config_explicit.go:126-146 | JSON takes a key in any case |
| ExplicitMeaning.RiskWeightRead | internal/codeguard/config/defaults_rules.go:35-47 | so for the nine risk-scoring weights, whose keys and defaults are listed |
| ExplicitMeaning.ProductionWeightRead | internal/codeguard/config/defaults_rules.go:336-345 | and for the four production-risk weights and any profile |
| ExplicitMeaning.IndexWhen | internal/codeguard/core/config_explicit.go:32-40 | a name reaches the first weight whose key or Go field name it is, whatever its case and the blanks around it |
| ExplicitWeights.WeightConfig.ExplicitZeroKeys | internal/codeguard/core/config_explicit.go:76-87 | the keys of the chosen zeros, in field order |
| ExplicitMeaning.ChosenZerosInOrder | internal/codeguard/core/config_explicit.go:76-87 | the chosen zeros come in the order of their fields |
| ExplicitWeights.AppendZeros | internal/codeguard/core/config_explicit.go:159-178 | splicing before the closing brace gives the text of the object with the zeros added |
| ExplicitMeaning.ZeroPrinted | internal/codeguard/core/config_explicit.go:159-178 | a zero is added as its quoted key, a colon and 0, after a comma unless it is the first member |

## Left out

- Sort: stands for `sort.Slice` and `sort.Strings`, whose callers may rely only on a sorted permutation; the library's own algorithm is not modelled.
- Baseline audit sections by rule, owner and risk, and the duplicate and collision diagnostics (internal/cli/baseline_audit.go:234-299): tables computed from the audited entries, settled by reading one loop each.
- Entries and findings with NUL bytes: order independence, the conditions for staleness and pruning need the sort key to identify an entry, which NUL bytes would break.
- The one-line body renderers (overview, layout, entry points, tests, conventions) are functions, not loops that append; the command list, the sections and the document are written by the loops of the source.
- Lower: folds ASCII letters only; Unicode folding is not modelled. Strings are sequences of characters, and a byte offset is a position in them.
- FindingsQuery: glob patterns and the set of known section keys are parameters; the fingerprint of a selection is the selection itself, so hash collisions do not exist here.
- BuildFindingsResponse: does not model section names, statuses, suppression counts, diagnostics and artifacts, which are copied from the report.
- Cursors are modelled by the fields that base64 and JSON would carry; scan ids are given by the caller and must be fresh; clock readings are parameters and never decrease.
- The mutexes: each critical section is one step or one method call; that Go's mutexes make them so is assumed.
- Requester: JSON decoding of a response's result or error (internal/cli/mcp_client_requester.go:74-89) and the spelling of ids are not modelled.
- ToolCalls: the tool itself, progress messages' texts and the effect of a cancelled context on the tool are left open: a tool may return at any time, successfully or not.
- HandleCancelled: returns the call whose context is to be cancelled instead of cancelling it.
- Registry: session contents and HTTP are not modelled; ids are given by the caller and must be fresh.
- Git's default name prefix `b/` is assumed, which internal/codeguard/history/history.go:40 does not insist on: with `diff.noprefix=true` the code takes the first directory off the name of a file below `b/`.
- Carriage returns at the end of an added line, which `parseLog` cuts off with the line end, are left out of what a log adds.
- Which names git puts between quotes: a name may be printed either way, and the statements say what follows from each.
- ParseChangeMetrics: takes the lines as read; the 16 MiB cap, the scanner's 1 MiB line limit, cancellation and the running of git are not modelled; the defect pattern is a parameter.
- HistoryLog: the secret rules are a parameter; line numbers are natural numbers and do not wrap around; the 256 MiB cap and the running of git are not modelled.
- ReadBoundedLine: the stream is a string; read errors other than its end are not modelled.
- Decode: YAML aliases and merge keys, values of other types and struct fields that are not weights are not modelled; both formats are lists of keys and integers.
- ApplyDefaults: goes through the field table in a loop where the source has one statement per field.
- WeightConfig: the 32-bit mask is the set of its bits; no table has more than nine fields.
- Git, HTTP, standard input and output, file reading and writing, and profiles, validators and other configuration tables.
