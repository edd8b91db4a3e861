# GIToday core, modelled in Dafny

GIToday is a Discord bot that reports GitHub commit activity for an organisation.
This project models its core logic and proves properties of that model:

- **Report windows.** This is the strict ISO-8601 check, relative windows such as `7d` or `24h`, the `/report` choice between absolute, relative and default windows, and the 90-day span limit. The ECMAScript `Date` calendar these rest on is part of it.
- **Commit collection.** Duplicate SHAs are removed within each branch's listing (not across branches, although the documentation says so), a summary is derived for each commit, and the worker loop of `listCommits` claims commits from a shared counter.
- **Aggregation.** Commits are grouped by author into repository reports. These are merged into an organisation report and sorted into a leaderboard.
- **Identities.** Author keys are resolved to Discord names, blacklisted authors are filtered out, and rows that now share a name are merged. Three generations of this code exist, and each is modelled.
- **Formatting.** This covers the leaderboard table, the plain list, and the splitting of a long message into Discord-sized chunks.
- **Schedulers.** There are two daily-report schedulers. The first keeps every guild's config in one JSON state file. The second keeps a per-guild task file and a live table of cron jobs. The cron expression built from `"HH:mm"` is shared by both.
- **Per-guild stores.** These are the blacklist, the auth map and the guild info files. The first release's global blacklist and people map files are modelled as well.

Every file-backed store is a class whose field is the directory or file content: a map from guild id (or file name) to what the file holds. A file that cannot be read or parsed is a constructor of its own. Each method is tied to a pure function of the old state by its `ensures`, and the lemmas state what the source promises about those functions. The network, the clock, the cron library and Discord are parameters.

## Model

| member | source | states |
|---|---|---|
| Calendar.Fields | src/lib/time.ts:13-17 | A time value splits into valid calendar fields (year, month, day, hour, minute, second, millisecond) that recombine to exactly that value. |
| Calendar.FieldsOfTimeValue | src/lib/time.ts:13-17 | Valid fields combined into a time value and split again are the same fields, so each instant has one calendar reading. |
| Calendar.YearText | src/lib/time.ts:17 | `toISOString` writes four digits for years 0..9999 and a sign plus six digits for any other year. |
| Calendar.YearInRange | src/lib/time.ts:13-17 | Every time value a Date can hold lies in a year of at most six digits. |
| Calendar.FourDigitYearInRange | src/lib/time.ts:13-17 | Every valid date of a four-digit year is inside the Date range. |
| Calendar.IsoRoundTrip | src/lib/time.ts:10-17 | The text written for a year 0..9999 matches the strict pattern, is 24 characters long, and reads back as the fields it was written from. |
| Calendar.ExtendedRoundTrip | src/lib/time.ts:10-17 | The text written for any other year fails the strict pattern, matches the extended form, and reads back as its fields. |
| Calendar.ParseOfToISOString | src/lib/time.ts:13-17 | Parsing what `toISOString` wrote gives back the time value it was written from. |
| TimeWindows.IsISO8601String | src/lib/time.ts:9-18 | An accepted string is 24 characters long and parses to an instant. |
| TimeWindows.IsISO8601Characterization | src/lib/time.ts:9-18 | `isISO8601String` accepts exactly the 24-character strings of the pattern that name a real date, so a fraction of three digits is required. |
| TimeWindows.RenderOfCanonical | src/lib/time.ts:13-17 | Such a canonical string is written back character for character by `toISOString`. |
| TimeWindows.DocumentedExampleRejected | src/lib/time.ts:1-18 | The example its own documentation gives, `2025-09-11T15:30:00Z`, is rejected. |
| TimeWindows.IsUtcTimestampAcceptsWrittenForms | src/lib/time.ts:1-10 | The documented check accepts both the text `toISOString` writes and the second-precision form, and each names the instant it was written from. |
| TimeWindows.SecondPrecisionForm | src/lib/time.ts:10 | Dropping the fraction of a matching string keeps every field but the milliseconds. |
| TimeWindows.IsUtcTimestampAgreesOnCanonical | src/lib/time.ts:9-18 | On 24-character text the documented check and the written one agree. |
| TimeWindows.ParseRelativeOfText | src/lib/time.ts:27-40 | A count written in decimal followed by `d` or `h`, in either case, is read back as that count and unit. |
| TimeWindows.ParseRelativeIgnoresPadding | src/lib/time.ts:26-55 | Whitespace around the relative text changes neither what it parses to nor the window `relativeToWindowISO` returns. |
| TimeWindows.RelativeToWindow | src/lib/time.ts:26-55 | It fails with the format error exactly when the text does not parse as a relative span, and with the range error exactly when now minus that span is before the earliest Date. |
| TimeWindows.RelativeWindowShape | src/lib/time.ts:42-54 | The relative window is `toISOString` of now minus the span and of now, or an out-of-range error when the start leaves the Date range. |
| TimeWindows.RelativeWindowSpan | src/lib/time.ts:42-54 | A relative window ends now and starts exactly n days or n hours earlier; it fails only when the start leaves the Date range. |
| TimeWindows.ZeroDaysIsEmptyWindow | src/lib/time.ts:42-54 | `0d` gives a window whose two ends are equal. |
| TimeWindows.ResolveWindowFromOptions | src/commands/report.ts:67-89 | It fails with the missing-`since` error exactly when `until` is given without `since`. |
| TimeWindows.AbsoluteOptionsWin | src/commands/report.ts:69-71 | With `since` or `until` present, `rel` is ignored, and `until` alone is an error. |
| TimeWindows.AbsoluteWindowAccepted | src/commands/report.ts:62-79 | With `since` given, an absolute window is accepted exactly when the trimmed `since` and the `until` end (the trimmed `until` when it is given, else `toISOString` of now) both pass the strict check and `since` is not after `until` (equal ends allowed); the window is those two texts. |
| TimeWindows.AbsoluteWindow | src/commands/report.ts:73-79 | The absolute branch on trimmed ends succeeds exactly when both are strict ISO text and `since` is not after `until`, and then yields those ends. |
| TimeWindows.AbsoluteBranch | src/commands/report.ts:70-79 | With both options given, the resolver is that absolute branch on the trimmed options. |
| TimeWindows.SinceOnlyUntilNow | src/commands/report.ts:62-79 | With only `since` given, the resolver is that absolute branch on the trimmed `since` and `toISOString` of now. |
| TimeWindows.DefaultIsLastDay | src/commands/report.ts:83-88 | Without options, or with a blank `rel`, the window is the last day up to now. |
| TimeWindows.ResolvedWindowNotReversed | src/commands/report.ts:150-162 | A window the resolver returns is never reversed, so `execute`'s first span test never fires. |
| TimeWindows.AbsoluteWindowOrdered | src/commands/report.ts:73-79 | Both ends of an accepted absolute window parse, and `since` is not after `until`. |
| TimeWindows.RelativeWindowOrdered | src/commands/report.ts:83-88 | The same holds for a relative or default window. |
| TimeWindows.RelativeBranch | src/commands/report.ts:83-88 | Without absolute options the resolver is `relativeToWindowISO` of the trimmed-non-blank `rel`, else of `1d`. |
| TimeWindows.CheckSpan | src/commands/report.ts:156-170 | The window passes exactly when an end does not parse (its time is NaN, so both comparisons are false) or `until` is not before `since` and the span is at most 90 days. |
| TimeWindows.SpanCheckOf | src/commands/report.ts:157-168 | A window whose ends parse in order passes exactly when its span is at most 90 days. |
| TimeWindows.NotReversed | src/commands/report.ts:157-161 | Ordered parsable ends pass the reversal test. |
| TimeWindows.RelativeSpanLimit | src/commands/report.ts:163-168 | A relative window of n days or hours passes the span check exactly when it covers at most 90 days. |
| Commits.Dedup | src/lib/github/commits.ts:109-125 | The deduplicated list is no longer than the input and holds no item with an empty SHA. |
| Commits.RemoveDuplicateCommits | src/lib/github/commits.ts:109-125 | The one-pass loop with a seen set computes the deduplicated list. |
| Commits.DedupShas | src/lib/github/commits.ts:115-121 | The SHAs kept are exactly the non-empty SHAs of the input. |
| Commits.DedupDistinct | src/lib/github/commits.ts:115-121 | The output's SHAs are pairwise distinct and non-empty. |
| Commits.DedupKeepsFirst | src/lib/github/commits.ts:115-121 | An item is kept exactly when it is the first with its SHA. |
| Commits.KeptIsFirst | src/lib/github/commits.ts:118 | Every kept item is a first occurrence. |
| Commits.FirstIsKept | src/lib/github/commits.ts:117-121 | Every first occurrence with a non-empty SHA is kept. |
| Commits.DedupSubsequence | src/lib/github/commits.ts:115-121 | The output keeps the input's order. |
| Commits.DedupOfDistinct | src/lib/github/commits.ts:109-125 | A list with distinct, non-empty SHAs is returned unchanged. |
| Commits.DedupIdempotent | src/lib/github/commits.ts:109-125 | Deduplicating twice is the same as deduplicating once. |
| Commits.DedupLength | src/lib/github/commits.ts:109-125 | The output is no longer than the input. |
| Commits.ShasOfAppend | src/lib/github/commits.ts:120-121 | Appending an item adds exactly its SHA. |
| Commits.DeriveSummary | src/lib/github/commits.ts:142-157 | The summary keeps the SHA and takes the author key login, else email, else `unknown`. Missing stats count 0, a missing total is additions plus deletions, and a commit is merged iff it has two or more parents. |
| Commits.WorkerCount | src/lib/github/commits.ts:27 | At least one worker runs; the requested count is used when it is at least 1, and the default when none is given. |
| Commits.ListCommits | src/lib/github/commits.ts:31-61 | The claim loop over a shared counter yields, in claim order, the summaries of the deduplicated commits whose fetch succeeded and that pass the merge filter. |
| Commits.SummariesSound | src/lib/github/commits.ts:43-51 | Each summary comes from a listed, fetched commit, keeps its SHA and passes the merge filter; there are no more summaries than commits. |
| Commits.SummariesDistinct | src/lib/github/commits.ts:33-51 | Commits with distinct SHAs give summaries with distinct SHAs. |
| Commits.ListCommitsProperties | src/lib/github/commits.ts:19-62 | `listCommits` gives at most one summary per SHA, each for a listed and fetched commit, and no merged commit when merges are ignored. |
| Commits.FailedFetchDropsOnlyThatCommit | src/lib/github/commits.ts:47-54 | A failed fetch drops only its own commit; every other fetched commit that passes the filter is still reported. |
| Aggregation.GroupByAuthor | src/lib/github/report-repo.ts:32-59 | The fold into a Map keyed by author, then `Array.from`, gives one row per author in first-appearance order, each holding that author's sums. |
| Aggregation.KeysInOrderMembers | src/lib/github/report-repo.ts:37-52 | The Map's keys are exactly the author keys that occur in the rows. |
| Aggregation.KeysInOrderDistinct | src/lib/github/report-repo.ts:37-52 | Each Map key occurs once. |
| Aggregation.KeyAbsentSumsZero | src/lib/github/report-repo.ts:39-43 | An author without rows sums to 0 in every field. |
| Aggregation.GroupSumKeys | src/lib/github/report-repo.ts:37-59 | The grouped rows have pairwise distinct keys, and these are exactly the keys of the input. |
| Aggregation.GroupSumRow | src/lib/github/report-repo.ts:45-59 | The grouped row of an author holds that author's additions, deletions and total. |
| Aggregation.SumOverKeysOfRows | src/lib/github/report-repo.ts:37-52 | Summing each author's sum over the distinct authors gives the field total. |
| Aggregation.GroupSumConserves | src/lib/github/report-repo.ts:37-59 | Grouping neither loses nor invents additions, deletions or total. |
| Aggregation.SumKeyAppend | src/lib/github/report-org.ts:50-61 | An author's sum over two lists of rows is the sum of the two parts. |
| Aggregation.SumFieldAppend | src/lib/github/report-org.ts:50-61 | A field's total over two lists of rows is the sum of the two parts. |
| Aggregation.SumKeyPermutation | src/lib/github/report-org.ts:50-61 | An author's sums depend on which rows there are, not on their order. |
| Aggregation.SumFieldPermutation | src/lib/github/report-org.ts:50-61 | A field's total depends on which rows there are, not on their order. |
| Aggregation.GroupSumOfConcat | src/lib/github/report-org.ts:50-61 | Grouping a concatenation gives each author the sum of both parts, in either order. |
| Aggregation.Insert | src/lib/github/report-repo.ts:60 | Inserting a row into a list sorted descending keeps it sorted and adds exactly that row. |
| Aggregation.SortDesc | src/lib/github/report-repo.ts:60 | The stable sort by a numeric comparator returns a permutation of its input, sorted descending. |
| Aggregation.UnorderedSortIsIdentity | src/core/people/convertAuth.ts:67 | A comparator-less `sort()` on objects sees every pair as equal and leaves the array in its order. |
| Aggregation.InsertUnorderedAppends | src/core/people/convertAuth.ts:67 | Without a comparator each row is placed after all rows already placed. |
| Aggregation.SortKeepsSums | src/lib/github/report-repo.ts:60 | Sorting changes no author's sums. |
| Aggregation.SortedGroupSum | src/lib/github/report-repo.ts:37-60 | Grouping then sorting gives sorted rows with pairwise distinct keys, exactly the input's keys, and each row holds its author's sums. |
| Aggregation.SortedRowsMatch | src/lib/github/report-repo.ts:60 | A permutation of rows with distinct keys has distinct keys and the same rows. |
| RepoReport.Contributions | src/lib/github/report-repo.ts:37-51 | Each commit contributes one row carrying its author key and stats. |
| RepoReport.CollectRepoReport | src/lib/github/report-repo.ts:16-62 | The branch loop, with a throwing branch skipped, followed by the fold and the sort, computes the repository report. |
| RepoReport.CollectedAppend | src/lib/github/report-repo.ts:17-27 | Collecting two runs of branches is collecting each, one after the other. |
| RepoReport.ContributionsAppend | src/lib/github/report-repo.ts:37-51 | The contributions of two lists of commits are the contributions of each. |
| RepoReport.RepoReportOf | src/lib/github/report-repo.ts:29-62 | The report is sorted by additions, largest first. |
| RepoReport.RepoReportRows | src/lib/github/report-repo.ts:29-62 | The report has one row per distinct author of the collected commits, holds that author's sums, and is sorted by additions, largest first. |
| RepoReport.RepoReportConserves | src/lib/github/report-repo.ts:37-62 | The report's additions, deletions and total add up to those of all collected commits. |
| RepoReport.FailedBranchSkipped | src/lib/github/report-repo.ts:18-26 | A branch whose listing throws contributes nothing, and the other branches still count. |
| RepoReport.NoCommitsNoRows | src/lib/github/report-repo.ts:29 | Without collected commits the report is empty. |
| RepoReport.CollectedEmpty | src/lib/github/report-repo.ts:17-29 | Branches that all fail or list nothing collect nothing. |
| RepoReport.CrossBranchCountedTwice | src/lib/github/report-repo.ts:17-20 | There is no deduplication across branches, so a commit listed by two branches counts twice. |
| RepoReport.DedupSummaries | src/lib/github/commits.ts:7-18 | Deduplication over all branches' summaries keeps exactly the non-empty SHAs, each once. |
| RepoReport.DedupAbsorbsSeen | src/lib/github/commits.ts:105-125 | Summaries whose SHAs were all seen before, or are empty, add nothing to the deduplicated list. |
| RepoReport.CrossBranchCountedOnce | src/lib/github/commits.ts:7-18 | With deduplication across branches, a commit list reported by two branches gives the same report as when one branch reports it. |
| OrgReport.OrgReportOf | src/lib/github/report-org.ts:14-70 | The summary is sorted by additions, largest first, and `byRepo` has a key exactly for each non-empty listed repository name. |
| OrgReport.CollectOrgReport | src/lib/github/report-org.ts:14-70 | The worker pool over a shared index, followed by the merge over `Object.keys(byRepo)` and the sort, computes `{byRepo, summary}`. |
| OrgReport.ClaimRepos | src/lib/github/report-org.ts:22-44 | However many workers share the index, every index is claimed once in order: `byRepo` records each named repository's last outcome, and its key order is first-assignment order. |
| OrgReport.RepoStep | src/lib/github/report-org.ts:27-39 | One claimed index records a named repository and adds its name to the key order only the first time it is seen; an empty name changes nothing. |
| OrgReport.MergeRows | src/lib/github/report-org.ts:50-52 | The merge walk visits the repositories in key order and takes each one's rows in turn. |
| OrgReport.RepoOrderKeys | src/lib/github/report-org.ts:22-40 | `byRepo`'s key order lists each of its keys once, and these are the listed repositories with a non-empty name. |
| OrgReport.ByRepoEntry | src/lib/github/report-org.ts:30-39 | Every listed repository with a name has an entry holding its report, or `[]` when its aggregation threw. |
| OrgReport.FlattenAppend | src/lib/github/report-org.ts:50-61 | Walking two runs of repositories is walking each, one after the other. |
| OrgReport.FlattenPermutation | src/lib/github/report-org.ts:50-61 | Walking the repositories in another order permutes the merged rows. |
| OrgReport.MergeOrderIndependent | src/lib/github/report-org.ts:43-61 | Whatever order the repositories finish in, each author's merged totals are the same. |
| OrgReport.SummaryRows | src/lib/github/report-org.ts:48-70 | The summary is sorted by additions and has one row per distinct author across every repository, each summing that author's rows. |
| OrgReport.FlattenSumKey | src/lib/github/report-org.ts:50-61 | An author's merged sum is the sum over the repositories of that author's rows. |
| OrgReport.SummaryIsSumOverRepos | src/lib/github/report-org.ts:48-70 | Each summary row holds, per field, the sum over the repositories of that author's row in each repository's report. |
| Identity.GetUserName | src/core/people/convertAuth.ts:92-118 | The name is the guild member's display name, else the global username, else the id itself. |
| Identity.ConvertAuth | src/core/people/convertAuth.ts:25-42 | An unmapped key is returned unchanged; a mapped key becomes its mapped id or a name Discord holds for some id. |
| Identity.LegacyConvertAuth | src/lib/people-configs/convertAuth.ts:5-21 | An unmapped key is returned unchanged; a mapped key becomes one of the map's values. |
| Identity.StubConvertAuth | src/lib/convertAuth.ts:4-7 | The stub behaves as the legacy variant over an empty map. |
| Identity.UnmappedKeyUnchanged | src/core/people/convertAuth.ts:25-42 | A key absent from the map is returned unchanged by the guild, legacy and stub variants. |
| Identity.MappedKeyResolved | src/core/people/convertAuth.ts:25-36 | A mapped key becomes the looked-up name of its mapped id, or the mapped id when that name is empty. |
| Identity.ConvertAuthWithoutDirectory | src/lib/people-configs/convertAuth.ts:12-16 | When Discord knows nothing about the mapped id, the guild variant returns the raw mapped id, as the legacy variant always does. |
| Identity.EmptyMapIsIdentity | src/lib/convertAuth.ts:4-7 | With an empty map all three variants are the identity. |
| Identity.ConvertAuthNonEmpty | src/core/people/convertAuth.ts:25-42 | The resolved name is never empty when the key and every stored id are non-empty. |
| Identity.WithoutBlacklisted | src/core/people/convertAuth.ts:77 | The filter keeps exactly the rows whose key is not blacklisted, in their original order. |
| Identity.WithoutBlacklistedNames | src/core/people/convertAuth.ts:88 | The filter keeps exactly the strings that are not blacklisted, in their original order. |
| Identity.StubFiltersAreEmptyBlacklist | src/lib/convertAuth.ts:34-42 | The stub filters return their input, and so agree with the real filters on an empty blacklist. |
| Identity.NothingFiltered | src/lib/convertAuth.ts:39-42 | Filtering rows against an empty blacklist returns the rows. |
| Identity.NothingFilteredNames | src/lib/convertAuth.ts:34-37 | Filtering strings against an empty blacklist returns the strings. |
| Identity.MergeSameNames | src/core/people/convertAuth.ts:45-68 | The comparator-less sort leaves the merged rows in first-occurrence order, so the result is the grouped sums. |
| Identity.MergeSameNamesInAuthAgg | src/core/people/convertAuth.ts:45-68 | The merge loop over a Map, followed by a comparator-less sort, computes the merged rows. |
| Identity.MergeRows | src/core/people/convertAuth.ts:45-68 | The merge gives one row per distinct key, each summing its group, in order of first occurrence. |
| Identity.MergeKeepsFirstOccurrenceOrder | src/core/people/convertAuth.ts:48-67 | Of two merged rows, the earlier one's key occurs in the input before any occurrence of the later one's key. |
| Identity.KeysFirstSeen | src/core/people/convertAuth.ts:48-65 | In the Map's key order, an earlier key is first seen before a later one. |
| Identity.Rekeyed | src/core/people/convertAuth.ts:123-130 | Every row is re-keyed by `convertAuth` of its own key and keeps its numbers. |
| Identity.RekeyedSums | src/core/people/convertAuth.ts:123-130 | Re-keying keeps every field total. |
| Identity.ConvertAuthAgg | src/core/people/convertAuth.ts:120-136 | The output keys are pairwise distinct. |
| Identity.ConvertAuthAggConserves | src/core/people/convertAuth.ts:120-136 | The merged rows carry exactly the additions, deletions and totals of the rows that survive the blacklist. |
| Identity.ConvertAuthAggKeys | src/core/people/convertAuth.ts:120-136 | The output keys are distinct, and each is the converted key of a row whose raw key is not blacklisted. |
| Identity.ResolvedNameNotFiltered | src/core/people/convertAuth.ts:121-134 | The blacklist is checked on raw keys before mapping, so a row survives even when the name it resolves to is blacklisted. |
| Identity.BlacklistedDisplayNameSurvives | src/core/people/convertAuth.ts:121-134 | Concretely: `alice` maps to a member shown as `bob`; with `bob` blacklisted, alice's row is still reported, under `bob`. |
| Leaderboard.Resolve | src/shared/formatters/formatLeaderboard.ts:16-38 | Every option left out takes its default (top 10, no deletions, no total, code style, widths 18 and 8, budget 1900); a given option wins. |
| Leaderboard.LeftPad | src/shared/formatters/formatLeaderboard.ts:49-50 | The text is exactly `width` long: cut to the width, or padded with spaces on the right. |
| Leaderboard.RightPad | src/shared/formatters/formatLeaderboard.ts:53-54 | The text is exactly `width` long: cut to the width, or padded with spaces on the left. |
| Leaderboard.FormatLeaderboard | src/shared/formatters/formatLeaderboard.ts:26-101 | The method builds the lines step by step and returns the leaderboard text. |
| Leaderboard.PrefixLines | src/shared/formatters/formatLeaderboard.ts:72-77 | The lines pushed before the rows are the title when there is one, the opening fence in code style, the header and a dashed line as long as the header. |
| Leaderboard.TableLines | src/shared/formatters/formatLeaderboard.ts:72-93 | The loop with its running rank yields title, fence, header, separator, one line per row ranked from 1, and the closing fence. |
| Leaderboard.RowLinesSnoc | src/shared/formatters/formatLeaderboard.ts:80-91 | Each loop step appends the line of the next row with the next rank. |
| Leaderboard.HeaderColsWidths | src/shared/formatters/formatLeaderboard.ts:63-69 | Each header column is exactly its column's width. |
| Leaderboard.RowColsWidths | src/shared/formatters/formatLeaderboard.ts:82-88 | Each row column is exactly its column's width. |
| Leaderboard.RowAlignedWithHeader | src/shared/formatters/formatLeaderboard.ts:63-89 | Every row line is as wide as the header, which is the sum of the widths plus the separators. |
| Leaderboard.HeaderSumLengths | src/shared/formatters/formatLeaderboard.ts:63-70 | The header columns together are 3 plus the author width plus the number widths. |
| Leaderboard.RankColumn | src/shared/formatters/formatLeaderboard.ts:83 | Up to rank 999 a line begins with the rank, which reads back from the first column. |
| Leaderboard.NatToStringDigits | src/shared/formatters/formatLeaderboard.ts:83 | A rank up to 999 has at most three digits, so it fits its column. |
| Leaderboard.AuthorColumn | src/shared/formatters/formatLeaderboard.ts:84 | The author column follows the rank column left-aligned; an empty key shows as `unknown`. |
| Leaderboard.NumPadRoundTrip | src/shared/formatters/formatLeaderboard.ts:57-60 | A number that fits its column is right-aligned and reads back as itself. |
| Leaderboard.NumPadCutsWideNumbers | src/shared/formatters/formatLeaderboard.ts:59 | A number wider than its column loses its last digits: 123456789 shows as 12345678. |
| Leaderboard.DataIsTopByTotal | src/shared/formatters/formatLeaderboard.ts:43-46 | The shown rows are sorted by total, are exactly `min(max(1, top), rows.length)` many (none for an empty input), are taken from the input, and no row left out has a larger total than a shown one. |
| Leaderboard.PrefixIsTop | src/shared/formatters/formatLeaderboard.ts:46 | A prefix of a sorted list is sorted, and no item outside it is larger than an item in it. |
| Leaderboard.LinesLayout | src/shared/formatters/formatLeaderboard.ts:72-93 | The title comes first when present, the fences enclose the table in code style, one line per shown row. |
| Leaderboard.TableLayout | src/shared/formatters/formatLeaderboard.ts:72-93 | The same layout, stated on the assembled lines. |
| Leaderboard.TruncateFitsBudget | src/shared/formatters/formatLeaderboard.ts:95-99 | Text within the budget is unchanged; when the budget is at least 13, longer text is cut to exactly the budget and ends in the 13-character ellipsis line. |
| Leaderboard.LeaderboardText | src/shared/formatters/formatLeaderboard.ts:94-100 | Text that fits the budget is returned as it is. |
| Leaderboard.LeaderboardWithinBudget | src/shared/formatters/formatLeaderboard.ts:95-100 | With a budget of at least 13 the leaderboard never exceeds it. |
| ListFormat.FormatList | src/lib/formatters/formatList.ts:1-13 | The text is as long as its lines plus one line break between each two. |
| ListFormat.ListLayout | src/lib/formatters/formatList.ts:1-13 | The lines are the title when non-empty, the `txt` fence, one line per item in order, and the closing fence. |
| ListFormat.ItemLineShape | src/lib/formatters/formatList.ts:2-5 | Each item line is its number padded to two characters, a dot, a space and the item; the number reads back as the position from 1. |
| ListFormat.FormatListStart | src/lib/formatters/formatList.ts:7-12 | The text starts with the title line when there is a title, otherwise with the opening fence. |
| ListFormat.FormatListLineBreaks | src/lib/formatters/formatList.ts:7-12 | When no item or title holds a line break, the text has one line break per item, plus one, plus one more with a title. |
| ListFormat.JoinLineBreaks | src/lib/formatters/formatList.ts:12 | Joining n lines without breaks of their own with a line break gives n - 1 breaks. |
| Chunks.LastIndexOf | src/app/scheduler/messenger.ts:93-94 | The result is -1 or the last position at or before `from` that holds the character. |
| Chunks.CutAt | src/app/scheduler/messenger.ts:93-95 | The cut lies between 1 and the limit. |
| Chunks.Chunks | src/app/scheduler/messenger.ts:88-106 | There is always at least one chunk, and text within the limit is its own single chunk. |
| Chunks.ChunksWithinLimit | src/app/scheduler/messenger.ts:88-106 | No chunk exceeds the limit. |
| Chunks.SplitIntoDiscordChunks | src/app/scheduler/messenger.ts:88-106 | The loop over the remaining text returns exactly the chunks. |
| Chunks.CutStep | src/app/scheduler/messenger.ts:92-101 | One pass of the loop moves the first chunk from the remaining text to the parts. |
| Chunks.ChunksRebuildText | src/app/scheduler/messenger.ts:97-100 | Nothing is lost but the characters dropped at the cuts: the chunks interleaved with at most one line break and one space each rebuild the text. |
| Chunks.CutPrefersLineBreak | src/app/scheduler/messenger.ts:93 | With a line break at a position from 1 to the limit, the first chunk ends right before the last such line break. |
| Chunks.HardSplitDropsNothing | src/app/scheduler/messenger.ts:95 | Without a line break or space to cut at, the first chunk is exactly the limit long and nothing is dropped. |
| ScheduleTypes.OverlayFields | src/app/scheduler/storage-json.ts:92 | Over a full config, each field the patch has takes the patch's value and every other field keeps its value. |
| ScheduleTypes.OverlayIdempotent | src/app/scheduler/storage-json.ts:92 | Laying the same patch over twice is laying it over once. |
| ScheduleTypes.PatchOverIdempotent | src/infrastructure/db/tasks.ts:32 | The same for a patch over a partial config. |
| ScheduleTypes.PatchOverEmpty | src/infrastructure/db/tasks.ts:20-32 | Over the empty config a patch stores exactly its own fields. |
| ScheduleStore.Load | src/app/scheduler/storage-json.ts:43-55 | Only text that does not parse is an error; a stored object reads as itself; a missing or empty file, or a value that is not an object, reads as the empty document. |
| ScheduleStore.Without | src/app/scheduler/storage-json.ts:112 | The key order after a delete holds exactly the other ids. |
| ScheduleStore.ConfigOf | src/app/scheduler/storage-json.ts:69-72 | The lookup fails exactly on an unparsable file and finds a config exactly when the guild has one. |
| ScheduleStore.StateStore.GetConfig | src/app/scheduler/storage-json.ts:69-72 | Returns the guild's stored config, None, or the parse error. |
| ScheduleStore.StateStore.SaveConfig | src/app/scheduler/storage-json.ts:81-95 | Writes the document with the stored config (or the defaults) overlaid by the patch; an unparsable file is left alone and the error returned. |
| ScheduleStore.StateStore.UpsertConfig | src/app/scheduler/storage-json.ts:103-107 | Writes the document with the guild's config replaced. |
| ScheduleStore.StateStore.DeleteConfig | src/app/scheduler/storage-json.ts:109-115 | Writes the document without the guild only when it had a config. |
| ScheduleStore.StateStore.ListGuildIds | src/app/scheduler/storage-json.ts:97-100 | Returns the document's keys in their order. |
| ScheduleStore.PutWellFormed | src/app/scheduler/storage-json.ts:93 | An assignment keeps the key order listing every key once. |
| ScheduleStore.RemoveWellFormed | src/app/scheduler/storage-json.ts:112 | A delete keeps the key order listing every key once. |
| ScheduleStore.WithoutDistinct | src/app/scheduler/storage-json.ts:112 | Removing an id from a list without repeats leaves a list without repeats. |
| ScheduleStore.LoadWellFormed | src/app/scheduler/storage-json.ts:43-55 | Loading a well-formed file never gives a malformed document. |
| ScheduleStore.SaveThenGet | src/app/scheduler/storage-json.ts:81-95 | After a save the guild reads back its previous config, or the defaults, with the patch laid over it. |
| ScheduleStore.FirstSaveUsesDefaults | src/app/scheduler/storage-json.ts:74-92 | A first save fills every field the patch leaves out from the defaults: disabled, `08:00`, `America/Toronto`, no channel. |
| ScheduleStore.WritesKeepOtherGuilds | src/app/scheduler/storage-json.ts:81-115 | Saving, upserting or deleting one guild leaves every other guild's config as it was. |
| ScheduleStore.SaveIdempotent | src/app/scheduler/storage-json.ts:81-95 | Saving the same patch a second time writes the same document again. |
| ScheduleStore.UpsertThenGet | src/app/scheduler/storage-json.ts:103-107 | After an upsert the guild reads back exactly the given config. |
| ScheduleStore.DeleteThenGet | src/app/scheduler/storage-json.ts:109-115 | A delete writes only when the guild had a config, and leaves the guild without one. |
| ScheduleStore.GuildIdsListConfigs | src/app/scheduler/storage-json.ts:97-100 | The listed ids are the guilds with a config, each once; a save appends a new guild and otherwise keeps the order. |
| TaskStore.TaskOf | src/infrastructure/db/tasks.ts:11-26 | A guild without a file has the empty config; the lookup fails exactly when the file cannot be read or parsed. |
| TaskStore.GuildsOf | src/infrastructure/db/tasks.ts:43-53 | The listing yields at most one guild per directory entry. |
| TaskStore.Tasks.Get | src/infrastructure/db/tasks.ts:11-26 | Returns the guild's stored config, the empty config, or the read error. |
| TaskStore.Tasks.Set | src/infrastructure/db/tasks.ts:28-41 | Writes the stored config with the patch laid over it, creating the file when missing; an unreadable file is left alone and the error returned. |
| TaskStore.Tasks.ListGuilds | src/infrastructure/db/tasks.ts:43-53 | Returns the guilds of the `.json` entries in listing order. |
| TaskStore.FileNameBase | src/infrastructure/db/tasks.ts:48 | The base name of a guild's file is the guild id. |
| TaskStore.FileNameInjective | src/infrastructure/db/tasks.ts:12 | Two guilds never share a file. |
| TaskStore.BaseNameFile | src/infrastructure/db/tasks.ts:47-48 | A listed `.json` entry is the file of the guild it names. |
| TaskStore.GuildsOfMembers | src/infrastructure/db/tasks.ts:43-53 | A guild is listed exactly when its file is in the directory. |
| TaskStore.GuildsOfDistinct | src/infrastructure/db/tasks.ts:43-53 | Every guild is listed at most once. |
| TaskStore.SetThenGet | src/infrastructure/db/tasks.ts:28-41 | After a set the guild reads back its previous config with the patch laid over it; a guild without a file reads back exactly the patch. |
| TaskStore.SetKeepsOtherGuilds | src/infrastructure/db/tasks.ts:28-41 | A set on one guild leaves every other guild's config as it was. |
| TaskStore.SetIdempotent | src/infrastructure/db/tasks.ts:28-41 | Setting the same patch twice stores what setting it once stores. |
| CronExpr.Split | src/app/scheduler/scheduler.ts:57 | A split always gives at least one piece. |
| CronExpr.NumberText | src/app/scheduler/scheduler.ts:57-58 | The text of a number is never empty. |
| CronExpr.SplitWithout | src/app/scheduler/scheduler.ts:57 | Text without the separator splits into itself. |
| CronExpr.SplitFirst | src/app/scheduler/scheduler.ts:57 | The text before the first separator comes off whole. |
| CronExpr.NumberOfDigits | src/app/scheduler/scheduler.ts:57-58 | A field of digits reads as its value, leading zeros dropped. |
| CronExpr.NumberIgnoresPadding | src/app/scheduler/scheduler.ts:57-58 | Whitespace before a field is ignored. |
| CronExpr.BuildCronExpr | src/app/scheduler/scheduler.ts:56-59 | The expression starts with the seconds field `0 ` and ends with the three wildcard fields ` * * *`. |
| CronExpr.CronOfClockTime | src/app/scheduler/scheduler.ts:56-59 | A zero-padded `HH:mm` becomes `0 m h * * *` with both numbers without leading zeros. |
| CronExpr.CronOfEightOClock | src/app/scheduler/scheduler.ts:56-59 | The default `08:00` becomes `0 0 8 * * *`. |
| CronExpr.CronWithoutMinute | src/app/scheduler/scheduler.ts:56-59 | A time without a colon puts the text `undefined` in the minute field. |
| GuildScheduler.Scheduler.constructor | src/app/scheduler/scheduler.ts:45-48 | A new scheduler has no jobs. |
| GuildScheduler.Scheduler.RemoveJob | src/app/scheduler/scheduler.ts:97-103 | Stops and forgets the guild's job when it has one; nothing else changes. |
| GuildScheduler.Scheduler.EnsureJob | src/app/scheduler/scheduler.ts:61-95 | Reads the task file and leaves the result and job table that reconciling the guild against it gives. |
| GuildScheduler.Scheduler.Update | src/app/scheduler/scheduler.ts:105-123 | Writes the patch to the task file, then reconciles the guild; a failed write changes nothing. |
| GuildScheduler.Scheduler.SetChannelID | src/app/scheduler/scheduler.ts:105-108 | The setter for the channel. |
| GuildScheduler.Scheduler.SetEnabled | src/app/scheduler/scheduler.ts:110-113 | The setter for the enabled flag. |
| GuildScheduler.Scheduler.SetTime | src/app/scheduler/scheduler.ts:115-118 | The setter for the time. |
| GuildScheduler.Scheduler.SetTimeZone | src/app/scheduler/scheduler.ts:120-123 | The setter for the timezone. |
| GuildScheduler.Scheduler.ReloadAll | src/app/scheduler/scheduler.ts:125-131 | The loop reconciles every listed guild in order and stops at the first failure. |
| GuildScheduler.Scheduler.OnTick | src/app/scheduler/scheduler.ts:80-86 | A tick re-reads the task file and yields the channel only for a readable, enabled config that has one. |
| GuildScheduler.EnsureMatchesConfig | src/app/scheduler/scheduler.ts:61-95 | `ensureJob` fails exactly on an unreadable file, a channel without a time, or a rejected expression; a failure changes nothing; a success leaves a job exactly when there is a channel, built from the config's time and zone, started exactly when enabled. |
| GuildScheduler.EnsureKeepsOtherGuilds | src/app/scheduler/scheduler.ts:61-103 | `ensureJob` and `removeJob` touch only the guild's own job. |
| GuildScheduler.RemoveWithoutJob | src/app/scheduler/scheduler.ts:97-103 | Removing a guild without a job changes nothing. |
| GuildScheduler.ExistingJobKept | src/app/scheduler/scheduler.ts:66-93 | An existing job is re-timed in place and no job is created; otherwise exactly one new job is created, distinct from every earlier one. |
| GuildScheduler.EnsureIdempotent | src/app/scheduler/scheduler.ts:61-95 | Reconciling twice against the same file is reconciling once. |
| GuildScheduler.SetFieldIdempotent | src/app/scheduler/scheduler.ts:105-123 | Each setter applied twice gives the result and state of applying it once. |
| GuildScheduler.ChannelBeforeTimeFails | src/app/scheduler/scheduler.ts:57-107 | A guild without a task file given a channel first keeps the channel, but `split` of the missing time fails and no job is registered. |
| GuildScheduler.ReloadStopsAtFirstError | src/app/scheduler/scheduler.ts:128-130 | After a failing guild the later guilds are not visited. |
| GuildScheduler.ReloadMatchesConfigs | src/app/scheduler/scheduler.ts:125-131 | A reload that succeeds leaves every listed guild's job matching its config, and every other guild's job as it was. |
| GuildScheduler.RunningIffTickSends | src/app/scheduler/scheduler.ts:72-94 | After a successful `ensureJob` the job is started exactly when its ticks would send, and they send to the config's channel. |
| GuildScheduler.TickGuard | src/app/scheduler/scheduler.ts:80-85 | A tick sends exactly when the latest config is readable, has a channel and is enabled. |
| LegacyScheduler.Scheduler.constructor | src/app/scheduler/schedule.ts:16-25 | A new scheduler has no jobs. |
| LegacyScheduler.Scheduler.RemoveJob | src/app/scheduler/schedule.ts:73-79 | Stops and forgets the guild's job when it has one. |
| LegacyScheduler.Scheduler.EnsureJob | src/app/scheduler/schedule.ts:37-71 | Reads the state file and leaves the result and job table that reconciling the guild against it gives. |
| LegacyScheduler.Scheduler.Update | src/app/scheduler/schedule.ts:81-99 | Saves the patch, then reconciles the guild; a failed save changes nothing. |
| LegacyScheduler.Scheduler.SetChannelID | src/app/scheduler/schedule.ts:81-84 | The setter for the channel. |
| LegacyScheduler.Scheduler.SetEnabled | src/app/scheduler/schedule.ts:86-89 | The setter for the enabled flag. |
| LegacyScheduler.Scheduler.SetTime | src/app/scheduler/schedule.ts:91-94 | The setter for the time. |
| LegacyScheduler.Scheduler.SetTimeZone | src/app/scheduler/schedule.ts:96-99 | The setter for the timezone. |
| LegacyScheduler.Scheduler.ReloadAll | src/app/scheduler/schedule.ts:101-105 | The loop reconciles the given ids in order and stops at the first failure. |
| LegacyScheduler.Scheduler.Init | src/app/scheduler/schedule.ts:27-30 | Reloads every guild the state file lists; an unparsable file changes nothing and is an error. |
| LegacyScheduler.Scheduler.OnTick | src/app/scheduler/schedule.ts:56-62 | A tick yields the latest config's channel only when it is enabled and has one. |
| LegacyScheduler.FlagsStayClear | src/app/scheduler/schedule.ts:45-69 | `ensureJob` never sets the `running` flag. |
| LegacyScheduler.DisabledJobKeepsRunning | src/app/scheduler/schedule.ts:48-49 | With the flag clear, a started job stays started when its config is disabled. |
| LegacyScheduler.SetEnabledFalseCannotStop | src/app/scheduler/schedule.ts:86-89 | Disabling a started guild through the setter leaves its job started although the stored config says disabled. |
| LegacyScheduler.EnsureFollowsConfig | src/app/scheduler/schedule.ts:37-71 | `ensureJob` fails exactly on an unparsable file or a rejected expression; a success leaves a job exactly when there is a channel, re-timed to the config, started whenever enabled, and a new job started exactly when enabled. |
| LegacyScheduler.EnsureKeepsOtherGuilds | src/app/scheduler/schedule.ts:37-79 | `ensureJob` and `removeJob` touch only the guild's own entry. |
| LegacyScheduler.ReloadStopsAtFirstError | src/app/scheduler/schedule.ts:101-105 | After a failing id the later ids are not visited. |
| LegacyScheduler.ReloadFollowsConfigs | src/app/scheduler/schedule.ts:101-105 | A reload that succeeds leaves a job for exactly the listed guilds with a channel, each re-timed to its config, and every other entry as it was. |
| LegacyScheduler.TickGuard | src/app/scheduler/schedule.ts:56-62 | A tick sends to the latest config's channel, and only when that config is enabled and has one. |
| ListEdits.IndexOf | src/infrastructure/db/blacklist.ts:58 | The result is -1 exactly when the item is absent, and otherwise the first position holding it. |
| ListEdits.AddedContents | src/infrastructure/db/blacklist.ts:35-40 | After an add the item is listed; an absent item is appended once and nothing else changes; a present one leaves the list as it was; a list without repeats keeps none. |
| ListEdits.RemovedFirstOnly | src/infrastructure/db/blacklist.ts:58-63 | A remove takes out exactly one occurrence, the first: the list loses one copy of the item and is what stood before and after it. |
| ListEdits.RemovedFromDistinct | src/infrastructure/db/blacklist.ts:58-63 | From a list without repeats the item is gone after a remove. |
| ListEdits.RemoveUndoesAdd | src/infrastructure/db/blacklist.ts:35-63 | Removing an item just added puts the list back as it was. |
| ListEdits.AddUndoesRemove | src/infrastructure/db/blacklist.ts:35-63 | Adding back an item just removed from a list without repeats restores the same items. |
| BlacklistStore.Blacklist.constructor | src/infrastructure/db/blacklist.ts:6-8 | The store starts from the given directory. |
| BlacklistStore.Blacklist.Get | src/infrastructure/db/blacklist.ts:10-21 | Returns the stored array, or `[]` after writing `[]` over a missing or unreadable file. |
| BlacklistStore.Blacklist.Add | src/infrastructure/db/blacklist.ts:23-44 | Reports whether the id was unlisted, and writes the array with it pushed exactly then. |
| BlacklistStore.Blacklist.Remove | src/infrastructure/db/blacklist.ts:46-68 | Reports whether the id was listed, and writes the array with its first occurrence spliced out exactly then. |
| BlacklistStore.GetResetsFile | src/infrastructure/db/blacklist.ts:10-21 | After `get` the guild's file is readable and holds what `get` returned; a corrupt file becomes `[]`. |
| BlacklistStore.AddAppendsOnce | src/infrastructure/db/blacklist.ts:23-44 | Adding a listed id writes nothing; an unlisted one is appended once at the end, even over an unreadable file. |
| BlacklistStore.RemoveDropsFirst | src/infrastructure/db/blacklist.ts:46-68 | Removing an unlisted id writes nothing; a listed one loses its first occurrence only. |
| BlacklistStore.AddThenRemoveRestores | src/infrastructure/db/blacklist.ts:23-68 | Removing an id just added gives back the guild's array. |
| BlacklistStore.OtherGuildsUntouched | src/infrastructure/db/blacklist.ts:10-68 | Every operation on one guild leaves every other guild's file as it was. |
| AuthMapStore.AuthMap.constructor | src/infrastructure/db/authMap.ts:7-9 | The store starts from the given directory. |
| AuthMapStore.AuthMap.Get | src/infrastructure/db/authMap.ts:11-23 | Returns the stored entries, or the empty map after writing `{}` over a missing or unreadable file. |
| AuthMapStore.AuthMap.Set | src/infrastructure/db/authMap.ts:25-48 | Reports whether the key was unmapped, and writes the map with the new entry exactly then. |
| AuthMapStore.AuthMap.Remove | src/infrastructure/db/authMap.ts:50-73 | Reports whether the key was mapped, and writes the map without it exactly then. |
| AuthMapStore.GetWipesUnreadable | src/infrastructure/db/authMap.ts:18-22 | A read or parse failure in `get` loses the document: the file then holds `{}`. |
| AuthMapStore.SetNeverOverwrites | src/infrastructure/db/authMap.ts:38-47 | A mapped key keeps its value and nothing is written; an unmapped key gets the value; every other key keeps its mapping. |
| AuthMapStore.RemoveOnlyThatKey | src/infrastructure/db/authMap.ts:63-72 | The key is unmapped afterwards, nothing is written when it was unmapped, and every other key keeps its mapping. |
| AuthMapStore.SetThenRemoveRestores | src/infrastructure/db/authMap.ts:25-73 | Removing a key just set gives back the guild's map. |
| AuthMapStore.SetOverUnreadable | src/infrastructure/db/authMap.ts:29-44 | A set over an unreadable file replaces the whole document by the one entry. |
| AuthMapStore.OtherGuildsUntouched | src/infrastructure/db/authMap.ts:11-73 | Every operation on one guild leaves every other guild's file as it was. |
| PeopleConfigs.GlobalBlacklist.constructor | src/lib/people-configs/blacklist.ts:7-8 | The store starts from the given blacklist file. |
| PeopleConfigs.GlobalBlacklist.GetBlacklist | src/lib/people-configs/blacklist.ts:10-20 | Returns the stored array, or the read, parse or format error. |
| PeopleConfigs.GlobalBlacklist.AppendBlacklist | src/lib/people-configs/blacklist.ts:22-31 | Fails exactly when the blacklist cannot be read; otherwise reports whether the name was unlisted and writes the array with it pushed exactly then. |
| PeopleConfigs.GlobalBlacklist.RemoveFromBlacklist | src/lib/people-configs/blacklist.ts:33-43 | Fails exactly when the blacklist cannot be read; otherwise reports whether the name was listed and writes the array without its first occurrence exactly then. |
| PeopleConfigs.BlacklistNeedsArray | src/lib/people-configs/blacklist.ts:11-19 | Only an array reads as a blacklist; an empty file is read as `{}` and rejected. |
| PeopleConfigs.AppendPutsNameLast | src/lib/people-configs/blacklist.ts:22-31 | An unlisted name is written last; a listed name or an unreadable blacklist leaves the file as it was. |
| PeopleConfigs.RemoveDropsFirstName | src/lib/people-configs/blacklist.ts:33-43 | A listed name loses its first occurrence and nothing else changes. |
| PeopleConfigs.AppendThenRemoveRestores | src/lib/people-configs/blacklist.ts:22-43 | Removing a name just appended gives back the file as it was. |
| PeopleConfigs.ToEntries | src/lib/people-configs/map.ts:52 | The object written has one entry per key of the map. |
| PeopleConfigs.GlobalMap.constructor | src/lib/people-configs/map.ts:7-8 | The store starts from the given map file. |
| PeopleConfigs.GlobalMap.GetMap | src/lib/people-configs/map.ts:10-46 | The loop over the object's entries returns the map `getMap` reads, or the read error. |
| PeopleConfigs.GlobalMap.AppendMap | src/lib/people-configs/map.ts:48-58 | Fails exactly when the map cannot be read; otherwise reports whether the key was unmapped and writes the map with the pair last exactly then. |
| PeopleConfigs.GlobalMap.RemoveFromMap | src/lib/people-configs/map.ts:60-63 | Reports whether the key is mapped and never changes the file. |
| PeopleConfigs.CollectedWellFormed | src/lib/people-configs/map.ts:34-40 | The collected map lists each of its keys once. |
| PeopleConfigs.CollectedKeepsStrings | src/lib/people-configs/map.ts:34-40 | Of an object, exactly the string-valued entries are kept, with their values. |
| PeopleConfigs.ToEntriesReadsBack | src/lib/people-configs/map.ts:34-52 | Reading back what `Object.fromEntries` wrote gives the keys in order with their values. |
| PeopleConfigs.ToEntriesStrings | src/lib/people-configs/map.ts:52-53 | Every value written is a string. |
| PeopleConfigs.AppendThenGet | src/lib/people-configs/map.ts:48-58 | After appending an unmapped key, `getMap` returns the previous map with the new pair last. |
| PeopleConfigs.AppendWritesStrings | src/lib/people-configs/map.ts:48-58 | Every value `appendMap` writes is a string; other values in the file are dropped. |
| PeopleConfigs.AppendNeverOverwrites | src/lib/people-configs/map.ts:48-58 | Appending a mapped key, or over a file that cannot be read, writes nothing. |
| PeopleConfigs.RemoveReportsButKeeps | src/lib/people-configs/map.ts:60-63 | As written, a store mapping `alice` reports her removed, and `getMap` still maps her afterwards. |
| PeopleConfigs.DeleteWellFormed | src/lib/people-configs/map.ts:62 | `map.delete` keeps each remaining key listed once with its value. |
| PeopleConfigs.WithRemovedOfDistinct | src/lib/people-configs/map.ts:62 | Deleting from a repeat-free key order leaves exactly the other keys, each once. |
| PeopleConfigs.RemoveThenGet | src/lib/people-configs/map.ts:48-63 | With the deletion written back as `appendMap` writes, `getMap` afterwards returns the previous map without the key, so the key is no longer mapped. |
| PeopleConfigs.AppendThenRemoveMapRestores | src/lib/people-configs/map.ts:48-63 | With that write-back, removing a key just appended restores the map read before the append. |
| GuildInfoStore.GuildInfo.constructor | src/infrastructure/db/guildInfo.ts:12-21 | The store starts from the given directory. |
| GuildInfoStore.GuildInfo.Get | src/infrastructure/db/guildInfo.ts:23-52 | Returns the stored sections, or the default document after writing it for a guild without a file, or the parse error. |
| GuildInfoStore.GuildInfo.Set | src/infrastructure/db/guildInfo.ts:54-62 | Replaces the guild's document and nothing else. |
| GuildInfoStore.GuildInfo.GetGitInfo | src/infrastructure/db/guildInfo.ts:64-72 | Returns the `git` section, or an error when the document cannot be parsed or has none. |
| GuildInfoStore.GuildInfo.SetGitInfo | src/infrastructure/db/guildInfo.ts:74-89 | The loop sets each given pair on the `git` section in order; the document is written back exactly when that section can be read. |
| GuildInfoStore.GuildInfo.InfoComplete | src/infrastructure/db/guildInfo.ts:91-101 | Reports whether the `git` section can be read with all four settings non-empty. |
| GuildInfoStore.OverlaidLookup | src/infrastructure/db/guildInfo.ts:78-80 | Setting pairs with distinct keys gives each key its value and leaves every other key as it was. |
| GuildInfoStore.DefaultIncomplete | src/infrastructure/db/guildInfo.ts:14-38 | A guild without a file gets the default document: GitHub through the app, no key, no organisation, which is not complete. |
| GuildInfoStore.CompleteIff | src/infrastructure/db/guildInfo.ts:91-101 | The info is complete exactly when the `git` section can be read and each required setting is present and non-empty. |
| GuildInfoStore.GitInfoErrors | src/infrastructure/db/guildInfo.ts:64-72 | `getGitInfo` fails exactly for a document that does not parse or has no `git` section. |
| GuildInfoStore.SetGitKeepsTheRest | src/infrastructure/db/guildInfo.ts:74-89 | `setGitInfo` changes only the `git` section: the given keys take their values, every other setting and section stays, other guilds are untouched. |
| GuildInfoStore.SettingKeyAndOrgCompletes | src/infrastructure/db/guildInfo.ts:74-101 | A guild without a file that is given a key and an organisation is then complete. |

The report code exists twice, in `src/lib/github/report-repo.ts` and `src/core/reports/report-repo.ts` (likewise `report-org.ts`). The two copies differ only in how the GitHub client is obtained, which puts the core copy one or two lines later, so the same members model both.

## Left out

- Network calls: branch, commit and repository listings, and per-commit stat fetches, are inputs (`Option` where a call can throw). The fork and archive filters of the repository listing are not part of this model.
- Concurrency: each worker pool is one sequential loop over the shared index, so only the claim order of a single worker is modelled, not interleavings.
- Discord: member and user lookups are the `Directory` maps given to the identity functions; sending messages, `Messenger.send`, `normalizeOptions` and every slash-command handler are not part of this model.
- The clock is the `now` parameter; the cron library is the `CronCheck` parameter (whether `new CronTime` accepts an expression and zone); job firing, timing and timezones are not modelled, a job being its expression, zone and started state.
- `Scheduler.onTickSend` (building and sending the report) is not modelled beyond the tick guard that decides whether it runs; `Scheduler.create` starts `reloadAll` without awaiting it, which is not modelled; `ReloadAll` is what it starts.
- Logging and the text of errors and warnings: errors are constructors of an error datatype.
- File system mechanics: `ensureFile`, `mkdir`, temp-file-and-rename, write failures, JSON indentation and trailing newlines. A directory is a map from guild id (or file name) to what the file holds; a missing directory is an empty map.
- JSON documents of shapes the code does not check: a blacklist file holding a non-array (its `includes` would throw), non-string values in an auth map, guild info sections that are not objects, and non-boolean `enabled` values. A state file holding a JSON array passes `typeof parsed === "object"` and is not distinguished from an object here.
- The key order of the objects written by `AuthMap` and `GuildInfo`; only the people map, whose order is observable through `getMap`, models key order. `Object.keys` puts integer-like keys first; the model keeps insertion order for every key.
- `GuildInfoStore.GuildInfo.Get`: any read error, not only a missing file, makes the code write the default document; only the missing file is modelled. `initFile` is folded into `Get`.
- `GuildInfoStore.GuildInfo.SetGitInfo`: the rebuild of the plain object from the `Map` (lines 83-86) is the identity on the modelled value and is not a separate loop.
- `CronExpr.NumberText`: `Number()` is modelled for blank text and an optional sign followed by digits; any other text (decimals, exponents, hexadecimal, `Infinity`) renders as `NaN`.
- JavaScript numbers are unbounded integers: sums of additions and deletions beyond 2^53 lose precision in the source and not here.
- Strings are sequences of characters: UTF-16 code units, surrogate pairs and non-ASCII lower-casing are not distinguished.
- Guild ids containing `/` or `.json` inside them, which would change the file path, are not modelled.
- `Chunks.Chunks` and `Chunks.SplitIntoDiscordChunks` require `limit >= 1`: with a limit of 0 the source's loop never ends on text that does not start with a line break or a space. Messages use the default limit of 2000.
- The command-handler checks in `src/app/commands/report/handler/` (which reply with an error but fall through) are not part of this model; only `resolveWindowFromOptions` and the span check of `src/commands/report.ts` are.
- OpenAI, environment variables, GitHub App authentication and the smoke scripts are not part of this model.

## Findings

| source | as written | input that shows it | evidently intended | confidence | as-written member | corrected member |
|---|---|---|---|---|---|---|
| src/lib/time.ts:1-17 | `isISO8601String` demands that the text equal its own `toISOString()`, which always writes three fractional digits | `2025-09-11T15:30:00Z`, the first example of its own documentation, is rejected | both documented forms, with or without `.sss`, are accepted when they name a real instant | high (not executed) | TimeWindows.DocumentedExampleRejected | TimeWindows.IsUtcTimestampAcceptsWrittenForms |
| src/app/scheduler/schedule.ts:48-69 | the `running` flag is stored as `false` and never set, so `!cfg.enabled && existing.running` never holds | a guild whose job was started, then `setEnabled(guild, false)`: the config says disabled but the job stays started | disabling a guild stops its job, as the live scheduler does by testing `cfg.enabled` alone (src/app/scheduler/scheduler.ts:72-73) | high (not executed) | LegacyScheduler.SetEnabledFalseCannotStop | GuildScheduler.EnsureMatchesConfig |
| src/lib/github/report-repo.ts:16-27 | each branch's commits are deduplicated by SHA inside `listCommits`, and the branch loop concatenates the listings without deduplicating across them | one commit list reported by two branches (a commit reachable from both `main` and a feature branch): its author's additions, deletions and total are doubled | deduplication by SHA across all branches, as the documentation of `listCommits` (src/lib/github/commits.ts:7-18) and of `removeDuplicateCommits` (src/lib/github/commits.ts:105-107) says | medium (not executed) | RepoReport.CrossBranchCountedTwice | RepoReport.CrossBranchCountedOnce |
| src/lib/people-configs/map.ts:60-63 | `removeFromMap` deletes the key from the map it just loaded and returns `true`, but never writes the file | a map file holding `alice`: `removeFromMap("alice")` returns `true`, and the next `getMap()` still maps `alice` | the map is written back without the key, as `appendMap` writes it back with a new key (src/lib/people-configs/map.ts:48-58) | high (not executed) | PeopleConfigs.RemoveReportsButKeeps | PeopleConfigs.RemoveThenGet |
