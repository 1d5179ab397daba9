/** `getAllMetrics`: the five metrics computed side by side and returned together, or not at
    all. Each metric fetches its own data, so commits are listed three times and pull requests
    twice; each of those listings is a separate input here. */
module MetricsService {
  import opened Wrappers
  import opened Records
  import CommitMetrics
  import PullRequestMetrics
  import IssueMetrics
  import ContributionTrends
  import ActivityHeatmap

  /** `{ commits, prMetrics, issueMetrics, contributionTrends, activityHeatmap, generatedAt }`;
      `generatedAt` is kept as the instant it names. */
  datatype AllMetrics = AllMetrics(
    commits: CommitMetrics.CommitsPerUser,
    prMetrics: PullRequestMetrics.PrMetrics,
    issueMetrics: IssueMetrics.IssueMetrics,
    contributionTrends: ContributionTrends.Trends,
    activityHeatmap: ActivityHeatmap.Heatmap,
    generatedAt: int)

  /** What the host answered to each listing the five metrics ask for. */
  datatype Fetches = Fetches(
    commitsForCommitMetric: Result<seq<Commit>, FetchError>,
    pullRequestsForPrMetric: Result<seq<PullRequest>, FetchError>,
    issues: Result<seq<Issue>, FetchError>,
    comments: IssueMetrics.CommentLookup,
    commitsForTrends: Result<seq<Commit>, FetchError>,
    pullRequestsForTrends: Result<seq<PullRequest>, FetchError>,
    commitsForHeatmap: Result<seq<Commit>, FetchError>)

  /** Every listing succeeded. */
  predicate AllFetched(f: Fetches) {
    && f.commitsForCommitMetric.Success?
    && f.pullRequestsForPrMetric.Success?
    && f.issues.Success?
    && f.commitsForTrends.Success?
    && f.pullRequestsForTrends.Success?
    && f.commitsForHeatmap.Success?
  }

  /** `e` is the error of one of the listings that failed. The trends metric stops at its
      commit listing, so its pull-request listing only counts when that one succeeded. */
  predicate FailedWith(f: Fetches, e: FetchError) {
    || (f.commitsForCommitMetric.Failure? && f.commitsForCommitMetric.error == e)
    || (f.pullRequestsForPrMetric.Failure? && f.pullRequestsForPrMetric.error == e)
    || (f.issues.Failure? && f.issues.error == e)
    || (f.commitsForTrends.Failure? && f.commitsForTrends.error == e)
    || (f.commitsForTrends.Success? && f.pullRequestsForTrends.Failure? && f.pullRequestsForTrends.error == e)
    || (f.commitsForHeatmap.Failure? && f.commitsForHeatmap.error == e)
  }

  /** The combined report when every listing succeeded. */
  function AllMetricsOf(f: Fetches, zone: ActivityHeatmap.Zone, now: int, days: int, generatedAt: int): AllMetrics
    requires AllFetched(f)
  {
    var since := Cutoff(now, days);
    AllMetrics(
      CommitMetrics.CommitsPerUserOf(f.commitsForCommitMetric.value, days),
      PullRequestMetrics.PrMetricsOf(f.pullRequestsForPrMetric.value, since, days),
      IssueMetrics.IssueMetricsOf(f.issues.value, f.comments, days),
      ContributionTrends.TrendsOf(f.commitsForTrends.value, f.pullRequestsForTrends.value, since, days),
      ActivityHeatmap.HeatmapOf(f.commitsForHeatmap.value, zone, days),
      generatedAt)
  }

  /** `getAllMetrics`: `Promise.all` over the five metrics. The result is complete when every
      listing succeeded; otherwise there is no result at all, and the error is that of one of
      the failed listings. */
  method GetAllMetrics(f: Fetches, zone: ActivityHeatmap.Zone, now: int, days: int, generatedAt: int)
    returns (r: Result<AllMetrics, FetchError>)
    ensures r.Success? <==> AllFetched(f)
    ensures r.Success? ==> r.value == AllMetricsOf(f, zone, now, days, generatedAt)
    ensures r.Failure? ==> FailedWith(f, r.error)
  {
    var commits := CommitMetrics.GetCommitsPerUser(f.commitsForCommitMetric, days);
    var prMetrics := PullRequestMetrics.GetPRMetrics(f.pullRequestsForPrMetric, now, days);
    var issueMetrics := IssueMetrics.GetIssueMetrics(f.issues, f.comments, days);
    var trends := ContributionTrends.GetContributionTrends(f.commitsForTrends, f.pullRequestsForTrends, now, days);
    var heatmap := ActivityHeatmap.GetActivityHeatmap(f.commitsForHeatmap, zone, days);
    if commits.Failure? {
      return Failure(commits.error);
    }
    if prMetrics.Failure? {
      return Failure(prMetrics.error);
    }
    if issueMetrics.Failure? {
      return Failure(issueMetrics.error);
    }
    if trends.Failure? {
      return Failure(trends.error);
    }
    if heatmap.Failure? {
      return Failure(heatmap.error);
    }
    return Success(AllMetrics(commits.value, prMetrics.value, issueMetrics.value, trends.value,
                              heatmap.value, generatedAt));
  }

}
