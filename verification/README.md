# GitHub metrics service, modelled in Dafny

The service (`src/services/GitHubMetricsService.js`) computes five engineering metrics for one
repository over a look-back window of `days` days. It also combines all five into one report:

1. **Commits per user.** The commits of the window are counted per author identity.
2. **Pull-request metrics.** The pull requests created in the window are counted as total,
   merged, open and closed-unmerged. The report also gives the merge rate and the mean
   creation-to-merge time, in hours and in days.
3. **Issue metrics.** The issue listing, minus the pull requests it contains, gives total, open
   and closed counts. The mean time to first comment is taken over at most the first 50 issues,
   with one comment lookup per issue; a failed lookup is skipped. The mean creation-to-close
   time is given in hours and days.
4. **Contribution trends.** Commits and recent pull requests are joined under one identity per
   contributor. Each contributor gets a commit count, a pull-request count, a review count
   (always 0) and their sum. Contributors are ranked by that sum, most active first, with a
   stable sort.
5. **Activity heatmap.** Each commit is counted by calendar day (the UTC date), by hour of the
   day (the host's local clock) and by day of the week (the host's local clock). The
   day-of-week counter always has all seven days.
6. **All metrics.** The five are computed side by side. The report exists only when all of them
   succeed; otherwise the call fails with one of the failures.

An author's identity is resolved as follows:
- **Commit:** the platform login if it is non-empty, otherwise the commit's author name if that
  is non-empty, otherwise `"Unknown"`.
- **Pull request:** the login if it is non-empty, otherwise `"Unknown"`.

The model is split into these modules:

| module | file | contents |
|---|---|---|
| `Wrappers` | `wrappers.dfy` | the `Option` and `Result` types |
| `Seqs` | `seqs.dfy` | `filter`, occurrence counts, and object key order |
| `Counters` | `counters.dfy` | the counter idiom `m[k] = (m[k] \|\| 0) + 1` and counter sums |
| `Averages` | `averages.dfy` | hours, means, percentages, and `toFixed(2)` |
| `Records` | `records.dfy` | the entities, identity resolution, and the window cutoff |
| `CommitMetrics` | `commits.dfy` | metric 1 |
| `PullRequestMetrics` | `pull_requests.dfy` | metric 2 |
| `IssueMetrics` | `issues.dfy` | metric 3 |
| `ContributionTrends` | `contributors.dfy` | metric 4 |
| `ActivityHeatmap` | `heatmap.dfy` | metric 5 |
| `MetricsService` | `all_metrics.dfy` | all metrics together |

How the source's constructs are modelled:
- A loop that updates a dictionary in place is a `method` with a `while` loop. This covers each
  `forEach` over commits or pull requests and the triage `for` loop. Each such method is proved
  equal to a pure specification function (`CommitsPerUserOf`, `StatsOf`, `HeatmapOf`,
  `TriageTimesOf`). The properties the source promises are then proved about those functions.
- `filter`, `map` and `reduce` chains are functions.
- Timestamps are integers in milliseconds.
- Averages are exact rationals. `toFixed(2)` is the pair (sign, number of hundredths).
- The remote host's answers are parameters: a `Result` per listing, and a total function for
  the first-comment lookup.

## Model

| member | source | states |
|---|---|---|
| Records.FirstTruthyChoice | src/services/GitHubMetricsService.js:32 | An `a \|\| b \|\| fallback` chain yields the first candidate that is non-null and non-empty. It yields the fallback exactly when there is none, and never anything else. |
| Records.AuthorKeyResolution | src/services/GitHubMetricsService.js:32 | A commit's identity is its login if non-empty, else its author name if non-empty, else "Unknown". The identity is never empty. |
| Records.PullRequestAuthorKeyResolution | src/services/GitHubMetricsService.js:248 | A pull request's identity is its login if non-empty, else "Unknown", with no name fallback. A pull request and a commit with the same login share one identity. |
| Records.Cutoff | src/services/GitHubMetricsService.js:16-17 | The window starts exactly `days` days before `now`, and not after `now` for a non-negative `days`. |
| Records.WindowGrowsWithDays | src/services/GitHubMetricsService.js:70-72 | A longer look-back never drops a record that a shorter one keeps. |
| CommitMetrics.CountCommitsPerUser | src/services/GitHubMetricsService.js:30-38 | The loop's counter equals the specification `CommitsPerUserOf`. The total is the number of commits, the counts sum to the total, and every listed identity has at least 1. |
| CommitMetrics.GetCommitsPerUser | src/services/GitHubMetricsService.js:15-45 | A failed listing is re-thrown unchanged. Otherwise the result is the per-identity count of the listed commits. |
| CommitMetrics.CommitsPerUserCounts | src/services/GitHubMetricsService.js:30-38 | Every commit's identity is a key, and each key counts exactly the commits with that identity (at least 1). The counts add up to `total`. |
| CommitMetrics.TwoUsersExample | tests/GitHubMetricsService.test.js:34-60 | Two commits by user1 and one by user2 give total 3 and `{user1: 2, user2: 1}`. |
| CommitMetrics.ExternalAuthorExample | tests/GitHubMetricsService.test.js:63-76 | A commit without a login is counted under its author name. |
| PullRequestMetrics.GetPRMetrics | src/services/GitHubMetricsService.js:52-109 | The result fails exactly when the listing failed, with the same error. |
| PullRequestMetrics.ClassMembership | src/services/GitHubMetricsService.js:70-78 | A pull request is in the window iff it was created at or after the cutoff. It is merged, open or closed-unmerged iff it is in the window and has that class's fields. |
| PullRequestMetrics.ClassesBounded | src/services/GitHubMetricsService.js:74-78 | Open and closed-unmerged never overlap, and neither do merged and closed-unmerged. So neither pair of counts exceeds the total. |
| PullRequestMetrics.ClassesPartition | src/services/GitHubMetricsService.js:74-78 | Suppose every state is "open" or "closed" and no open pull request is merged. Then merged + open + closed = total. |
| PullRequestMetrics.CycleTimes | src/services/GitHubMetricsService.js:81-85 | There is one cycle time per merged pull request. Each is its merge time minus its creation time, in hours. |
| PullRequestMetrics.MergeRateRange | src/services/GitHubMetricsService.js:92-93 | The merge rate is between 0 and 100. It is exactly merged × 100 / total, and 0 for an empty window. |
| PullRequestMetrics.AvgCycleTimeBounds | src/services/GitHubMetricsService.js:81-90 | The average cycle time is 0 with no merged pull request. Otherwise it lies within any bounds of the individual cycle times. |
| PullRequestMetrics.TwoOfThreeMergedExample | tests/GitHubMetricsService.test.js:86-119 | Two pull requests merged a day after creation plus one open one give 3/2/1/0, "66.67" % and "24.00" hours. |
| PullRequestMetrics.NoPullRequestsExample | tests/GitHubMetricsService.test.js:121-129 | An empty window reports 0 everywhere, with "0.00" figures. |
| Averages.Hours | src/services/GitHubMetricsService.js:84 | A millisecond difference in hours: the hours times 3 600 000 give back the milliseconds, and the sign is kept. |
| Averages.MeanBounds | src/services/GitHubMetricsService.js:87-90 | The mean of a non-empty sample lies within any bounds of its elements. |
| Averages.Percent | src/services/GitHubMetricsService.js:92-93 | It is 0 for an empty whole, and part × 100 / whole otherwise. It is within 0..100 when part ≤ whole. |
| Averages.ToFixed2 | src/services/GitHubMetricsService.js:100-102 | The printed sign is negative iff the value is negative. The printed hundredths are within half a hundredth of the magnitude. |
| IssueMetrics.GetIssueMetrics | src/services/GitHubMetricsService.js:116-193 | A failed listing is re-thrown unchanged; failed comment lookups are not failures. Otherwise the result is `IssueMetricsOf` of the listing and the lookups. |
| IssueMetrics.SampleTriageTimes | src/services/GitHubMetricsService.js:139-161 | The loop looks up exactly the first min(50, n) issues, in order. It collects the triage samples of exactly those issues, so there are at most 50. |
| IssueMetrics.ResolutionTimes | src/services/GitHubMetricsService.js:169-173 | There is one resolution time per closed issue. Each is its closing time minus its creation time, in hours. |
| IssueMetrics.TriageOf | src/services/GitHubMetricsService.js:142-160 | An issue adds one triage sample exactly when its lookup succeeds and finds a comment. The sample is the time from the issue's creation to that comment, in hours. |
| IssueMetrics.IssueTotal | src/services/GitHubMetricsService.js:133 | The total is the listing size minus its pull requests. No pull request is kept and every plain issue is kept. |
| IssueMetrics.OpenClosedSplit | src/services/GitHubMetricsService.js:135-136 | Open and closed never overlap. They cover all issues when every state is one of the two. |
| IssueMetrics.TriageTimesAppend | src/services/GitHubMetricsService.js:140-161 | The triage samples of two runs of issues are those of each run, one after the other. |
| IssueMetrics.TriageSkipsFailedLookup | src/services/GitHubMetricsService.js:142-160 | Take an issue whose lookup fails or finds no comment. The samples are the same as if that issue were absent. |
| IssueMetrics.TriageSampleSize | src/services/GitHubMetricsService.js:139-166 | There is one sample per issue whose first comment was found. The average is 0 when there is none. |
| IssueMetrics.ResolutionTimeBounds | src/services/GitHubMetricsService.js:169-178 | The average resolution time is 0 with no closed issue. Otherwise it lies within any bounds of the individual times. |
| IssueMetrics.OneClosedOneOpenExample | tests/GitHubMetricsService.test.js:133-162 | One issue closed a day after creation, one open issue and no comments give total 2, open 1, closed 1, triage "0.00", resolution "24.00" hours and "1.00" days. |
| IssueMetrics.PullRequestDroppedExample | tests/GitHubMetricsService.test.js:164-185 | A listed pull request is not counted as an issue. |
| ContributionTrends.CountCommits | src/services/GitHubMetricsService.js:231-245 | The first `forEach`: the key order is the order in which identities were first met, and the counters are those of the commit identities. |
| ContributionTrends.CountPullRequests | src/services/GitHubMetricsService.js:246-257 | The second `forEach`, which continues the first: the key order and the counters extend to the pull-request identities. |
| ContributionTrends.StatsCounts | src/services/GitHubMetricsService.js:231-257 | Each identity's counters hold exactly its number of commits and of pull requests, and 0 reviews. |
| ContributionTrends.Insert | src/services/GitHubMetricsService.js:266 | Inserting adds exactly the one entry: the result is a permutation of the list plus that entry. |
| ContributionTrends.Rank | src/services/GitHubMetricsService.js:266 | Ranking keeps every entry: the result is a permutation of the input. |
| ContributionTrends.RankRanked | src/services/GitHubMetricsService.js:266 | The ranking is non-increasing in total activity. |
| ContributionTrends.RankStable | src/services/GitHubMetricsService.js:266 | The sort is stable: the entries of any one activity keep their relative order. |
| ContributionTrends.RankUnique | src/services/GitHubMetricsService.js:260-266 | Ranking entries with distinct identities keeps them distinct. |
| ContributionTrends.RankSum | src/services/GitHubMetricsService.js:260-266 | Ranking keeps the sum of activities. |
| ContributionTrends.GetContributionTrends | src/services/GitHubMetricsService.js:200-277 | A failed commit listing is re-thrown first, then a failed pull-request listing. Otherwise the result is `TrendsOf`, with the window starting `days` days before `now`. |
| ContributionTrends.TrendsActivitySum | src/services/GitHubMetricsService.js:231-266 | Each commit and each pull request in the window counts once, towards exactly one contributor. The total activity is the number of commits plus the number of pull requests. |
| ContributionTrends.TrendsIdentities | src/services/GitHubMetricsService.js:231-270 | There is one contributor per identity met, none twice. `totalContributors` is their number. |
| ContributionTrends.TrendsContributors | src/services/GitHubMetricsService.js:231-266 | Each contributor is an identity that was met. It has its own commit and pull-request counts and 0 reviews. Its activity is the sum of the two, as the entries built at lines 261-265 compute it. |
| ContributionTrends.TrendsOrder | src/services/GitHubMetricsService.js:260-266 | Contributors are ranked most active first. Ties stay in the order identities were first met, commits before pull requests. |
| ContributionTrends.RankedByActivityExample | tests/GitHubMetricsService.test.js:221-246 | Two commits by user1 and one by user2 put user1 first with activity 2, out of 2 contributors. |
| ContributionTrends.JoinedIdentitiesExample | tests/GitHubMetricsService.test.js:189-219 | Commits by user1 and user2 plus a pull request by user1 give 2 contributors. |
| ActivityHeatmap.HourOf | src/services/GitHubMetricsService.js:314 | A clock reading's hour of the day is in 0..23. |
| ActivityHeatmap.ClockBuckets | src/services/GitHubMetricsService.js:312-314 | An instant lies within its calendar day, and within that day within its hour. |
| ActivityHeatmap.WeekdayName | src/services/GitHubMetricsService.js:315-323 | Every clock reading falls on one of the seven named days. |
| ActivityHeatmap.BuildHeatmap | src/services/GitHubMetricsService.js:299-328 | The loop's three counters equal the specification `HeatmapOf`. |
| ActivityHeatmap.HeatmapSnoc | src/services/GitHubMetricsService.js:311-328 | One more commit adds one to its UTC day, to its local hour and to its local day of the week, and changes nothing else. |
| ActivityHeatmap.GetActivityHeatmap | src/services/GitHubMetricsService.js:284-341 | A failed listing is re-thrown unchanged. Otherwise the result is the heatmap of the listed commits. |
| ActivityHeatmap.HeatmapTotals | src/services/GitHubMetricsService.js:299-335 | Each of the three counters sums to `totalCommits`, which is the number of commits. The day-of-week keys are the seven names, and every hour key is in 0..23. |
| ActivityHeatmap.WeekHasSevenDays | src/services/GitHubMetricsService.js:301-309 | The day-of-week counter always has exactly the seven names, even for days with no commit. |
| ActivityHeatmap.HeatmapCounts | src/services/GitHubMetricsService.js:325-327 | A day or hour is a key iff some commit falls in it. Each day of the week holds the number of commits on it. |
| ActivityHeatmap.SameHourExample | tests/GitHubMetricsService.test.js:287-310 | On a UTC host, commits at 10:00Z and 10:30Z on 2024-01-15 give hour 10 → 2, one day → 2, and Monday → 2. |
| ActivityHeatmap.LocalHourExample | src/services/GitHubMetricsService.js:313-323 | On a host at UTC+2, a commit at 23:30Z is keyed by its UTC date but counted in local hour 1, on a Tuesday. |
| MetricsService.GetAllMetrics | src/services/GitHubMetricsService.js:348-376 | A report exists iff every listing succeeded, and it is then the five metrics of those listings. Otherwise the error is that of a listing that failed. |

## Left out

- The remote host is not modelled. This covers authentication, `paginate` and its `per_page` pages, and the server-side `since` filter on commits and issues. Each listing is an input, already filtered as the host returns it.
- `listComments` is not modelled. It is a total function from issue number to "failed", "no comment" or the time of the first comment.
- MetricsService.GetAllMetrics: `Promise.all` runs the five metrics concurrently, and which failure reaches the caller depends on timing. The model promises only that the error is that of some failed listing, which is deliberately weaker than "the first to fail".
- `console.error` logging is not modelled.
- Records.Cutoff: the window start uses `setDate` on the host's local calendar, which moves by 23 or 25 hours across a daylight-saving change. The model's cutoff is exactly `days` × 24 hours before `now`, so it ignores daylight-saving shifts in the window start.
- Each metric reads the clock itself. The model uses one `now` for all of them, and `generatedAt` is an input instant rather than an ISO string.
- `activityByDay` keys are the ISO date strings `YYYY-MM-DD`. The model keys each day by its number of whole days since 1970-01-01 (UTC). Both name the same UTC date one-to-one, but the date-string format itself is not modelled.
- `getHours` and `getDay` read the host's local clock. The model takes the host's offset from UTC at each instant as a parameter, `ActivityHeatmap.Zone`. The test at tests/GitHubMetricsService.test.js:309 expects hour 10 for commits dated 10:00Z and 10:30Z. That holds only where the local offset is 0, and `ActivityHeatmap.SameHourExample` states it under that condition.
- Averages and rates are exact rationals, not IEEE doubles. `toFixed(2)` is modelled as its sign and its number of hundredths, rounded half up. The model does not cover double rounding, the exponential form `toFixed` prints for values of 10^21 and above, or the `"%"` suffix on the merge rate.
- `period` is kept as the number of days rather than the string `"<days> days"`.
- The default of 30 days when no argument is given is not modelled.
- JavaScript objects list integer-like keys (such as the author name `"123"`) before other keys. `ContributionTrends` models key order as pure insertion order (`Seqs.FirstSeen`), so the model does not capture that reordering.
- Author names that collide with inherited object properties (such as `"constructor"`) misbehave in the source. They are treated like any other identity.
- A commit without a `commit.author` object makes the heatmap throw a `TypeError`, because line 312 always reads `commit.commit.author.date`. The commit metrics (line 32) and the trends (line 235) read `commit.commit.author.name` only when `author.login` is not truthy, so they throw only for such a commit. `Records.Commit` always carries that object, so these paths are not modelled.
- A closed issue without `closed_at` is taken to close at the epoch, as `new Date(null)` does. Unparseable dates (`NaN`) are not modelled, since timestamps are integers.
- The controller, the HTTP server, the dashboard page and the Python script are not part of this model.
