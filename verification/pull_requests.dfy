/** Metric 2: pull-request merge rate and cycle time. The host lists every pull request; the
    window is applied here, on `created_at`. */
module PullRequestMetrics {
  import opened Wrappers
  import opened Seqs
  import opened Averages
  import opened Records

  /** `{ total, merged, open, closed, mergeRate, avgCycleTimeHours, avgCycleTimeDays, period }`;
      the rate and the two averages are what `toFixed(2)` prints (the rate without its `%`). */
  datatype PrMetrics = PrMetrics(
    total: nat, merged: nat, open: nat, closed: nat,
    mergeRate: Fixed2, avgCycleTimeHours: Fixed2, avgCycleTimeDays: Fixed2,
    periodDays: int)

  /** The window test on a pull request's creation time. */
  function CreatedSince(since: int): PullRequest -> bool {
    (pr: PullRequest) => InWindow(pr.createdAt, since)
  }

  /** The pull requests created at or after `since`. */
  function Recent(prs: seq<PullRequest>, since: int): seq<PullRequest> {
    Filter(CreatedSince(since), prs)
  }

  predicate IsMerged(pr: PullRequest) {
    pr.mergedAt.Some?
  }

  predicate IsOpen(pr: PullRequest) {
    pr.state == "open"
  }

  predicate IsClosedUnmerged(pr: PullRequest) {
    pr.state == "closed" && pr.mergedAt.None?
  }

  function Merged(prs: seq<PullRequest>): seq<PullRequest> { Filter(IsMerged, prs) }
  function Open(prs: seq<PullRequest>): seq<PullRequest> { Filter(IsOpen, prs) }
  function ClosedUnmerged(prs: seq<PullRequest>): seq<PullRequest> { Filter(IsClosedUnmerged, prs) }

  /** Creation to merge, in hours, of each merged pull request. */
  function CycleTimes(merged: seq<PullRequest>): (hours: seq<real>)
    requires forall i | 0 <= i < |merged| :: merged[i].mergedAt.Some?
    ensures |hours| == |merged|
    ensures forall i | 0 <= i < |merged| ::
              hours[i] * MsPerHour as real == (merged[i].mergedAt.value - merged[i].createdAt) as real
  {
    seq(|merged|, i requires 0 <= i < |merged| => Hours(merged[i].mergedAt.value - merged[i].createdAt))
  }

  /** Mean cycle time in hours of the merged pull requests among `recent`, 0 when none. */
  function AvgCycleTime(recent: seq<PullRequest>): real {
    Mean(CycleTimes(Merged(recent)))
  }

  /** Merged pull requests as a percentage of `recent`, 0 when `recent` is empty. */
  function MergeRate(recent: seq<PullRequest>): real {
    Percent(|Merged(recent)|, |recent|)
  }

  /** What the metric reports for the fetched list of all pull requests. */
  function PrMetricsOf(allPRs: seq<PullRequest>, since: int, days: int): PrMetrics {
    var recent := Recent(allPRs, since);
    var avgCycleTime := AvgCycleTime(recent);
    PrMetrics(|recent|, |Merged(recent)|, |Open(recent)|, |ClosedUnmerged(recent)|,
              ToFixed2(MergeRate(recent)), ToFixed2(avgCycleTime), ToFixed2(avgCycleTime / 24.0),
              days)
  }

  /** `getPRMetrics`: the window starts `days` days before `now`; a failed fetch is re-thrown
      unchanged. */
  function GetPRMetrics(fetched: Result<seq<PullRequest>, FetchError>, now: int, days: int)
    : (r: Result<PrMetrics, FetchError>)
    ensures r.Failure? <==> fetched.Failure?
    ensures r.Failure? ==> r.error == fetched.error
  {
    match fetched
    case Failure(e) => Failure(e)
    case Success(allPRs) => Success(PrMetricsOf(allPRs, Cutoff(now, days), days))
  }

  /** A pull request is counted iff it was created at or after the cutoff, and each count is of
      exactly the pull requests of its class in the window. */
  lemma ClassMembership(allPRs: seq<PullRequest>, since: int, pr: PullRequest)
    ensures pr in Recent(allPRs, since) <==> pr in allPRs && pr.createdAt >= since
    ensures pr in Merged(Recent(allPRs, since)) <==> pr in Recent(allPRs, since) && pr.mergedAt.Some?
    ensures pr in Open(Recent(allPRs, since)) <==> pr in Recent(allPRs, since) && pr.state == "open"
    ensures pr in ClosedUnmerged(Recent(allPRs, since)) <==>
              pr in Recent(allPRs, since) && pr.state == "closed" && pr.mergedAt.None?
  {
    var recent := Recent(allPRs, since);
    FilterMembership(CreatedSince(since), allPRs, pr);
    FilterMembership(IsMerged, recent, pr);
    FilterMembership(IsOpen, recent, pr);
    FilterMembership(IsClosedUnmerged, recent, pr);
  }

  /** Open and closed-unmerged never overlap, nor do merged and closed-unmerged, so neither pair
      exceeds the total. */
  lemma ClassesBounded(recent: seq<PullRequest>)
    ensures |Open(recent)| + |ClosedUnmerged(recent)| <= |recent|
    ensures |Merged(recent)| + |ClosedUnmerged(recent)| <= |recent|
  {
    FilterCount2(IsOpen, IsClosedUnmerged, recent);
    FilterCount2(IsMerged, IsClosedUnmerged, recent);
  }

  /** When every pull request is open or closed and no open one is merged, merged, open and
      closed-unmerged partition the window. */
  lemma ClassesPartition(recent: seq<PullRequest>)
    requires forall pr | pr in recent :: pr.state == "open" || pr.state == "closed"
    requires forall pr | pr in recent :: pr.state == "open" ==> pr.mergedAt.None?
    ensures |Merged(recent)| + |Open(recent)| + |ClosedUnmerged(recent)| == |recent|
  {
    FilterCount3(IsMerged, IsOpen, IsClosedUnmerged, recent);
  }

  /** The merge rate is a percentage, exactly `merged * 100 / total`, and 0 for an empty window. */
  lemma MergeRateRange(recent: seq<PullRequest>)
    ensures 0.0 <= MergeRate(recent) <= 100.0
    ensures |recent| == 0 ==> MergeRate(recent) == 0.0
    ensures |recent| > 0 ==> MergeRate(recent) * |recent| as real == 100.0 * |Merged(recent)| as real
  {
  }

  /** With no merged pull request the average cycle time is 0; otherwise it lies within any
      bounds of the individual cycle times (so it is not negative when every merge follows its
      creation). */
  lemma AvgCycleTimeBounds(recent: seq<PullRequest>, lo: real, hi: real)
    requires forall pr | pr in Merged(recent) :: lo <= Hours(pr.mergedAt.value - pr.createdAt) <= hi
    ensures |Merged(recent)| == 0 ==> AvgCycleTime(recent) == 0.0
    ensures |Merged(recent)| > 0 ==> lo <= AvgCycleTime(recent) <= hi
  {
    var merged := Merged(recent);
    var times := CycleTimes(merged);
    if |merged| > 0 {
      forall i | 0 <= i < |times| ensures lo <= times[i] <= hi {
        assert merged[i] in merged;
      }
      MeanBounds(times, lo, hi);
    }
  }

  /** Two merged pull requests and an open one fall into 2 merged, 1 open and none closed. */
  lemma TwoMergedOneOpenClasses(merged: PullRequest, open: PullRequest)
    requires merged.mergedAt.Some? && merged.state == "closed"
    requires open.mergedAt.None? && open.state == "open"
    ensures Merged([merged, merged, open]) == [merged, merged]
    ensures Open([merged, merged, open]) == [open]
    ensures ClosedUnmerged([merged, merged, open]) == []
  {
    var prs := [merged, merged, open];
    assert prs == [merged, merged] + [open];
    assert Merged(prs) == [merged, merged] by {
      FilterAppend(IsMerged, [merged, merged], [open]);
      FilterAll(IsMerged, [merged, merged]);
      FilterNone(IsMerged, [open]);
    }
    assert Open(prs) == [open] by {
      FilterAppend(IsOpen, [merged, merged], [open]);
      FilterNone(IsOpen, [merged, merged]);
      FilterAll(IsOpen, [open]);
    }
    FilterNone(IsClosedUnmerged, prs);
  }

  /** Two pull requests merged a day after their creation average 24 hours. */
  lemma DayLongCycleTimes(merged: PullRequest)
    requires merged.mergedAt.Some? && merged.mergedAt.value - merged.createdAt == MsPerDay
    ensures Mean(CycleTimes([merged, merged])) == 24.0
  {
    var times := CycleTimes([merged, merged]);
    assert times == [24.0, 24.0];
    assert Sum([24.0]) == 24.0 by { assert [24.0][..0] == []; }
    assert Sum([24.0, 24.0]) == 48.0 by { assert [24.0, 24.0][..1] == [24.0]; }
  }

  /** Three pull requests created a day ago, two merged now and one still open, give 3 in total,
      2 merged, 1 open, 0 closed, a 66.67% merge rate and a 24-hour average cycle time. */
  lemma TwoOfThreeMergedExample(now: int)
    ensures var yesterday := now - MsPerDay;
            var merged := PullRequest(yesterday, Some(now), "closed", None);
            var open := PullRequest(yesterday, None, "open", None);
            PrMetricsOf([merged, merged, open], Cutoff(now, 30), 30)
              == PrMetrics(3, 2, 1, 0, Fixed2(false, 6667), Fixed2(false, 2400), Fixed2(false, 100), 30)
  {
    var yesterday := now - MsPerDay;
    var merged := PullRequest(yesterday, Some(now), "closed", None);
    var open := PullRequest(yesterday, None, "open", None);
    var prs := [merged, merged, open];
    assert Recent(prs, Cutoff(now, 30)) == prs by {
      FilterAll(CreatedSince(Cutoff(now, 30)), prs);
    }
    TwoMergedOneOpenClasses(merged, open);
    DayLongCycleTimes(merged);
    assert MergeRate(prs) == 200.0 / 3.0;
    assert ToFixed2(200.0 / 3.0) == Fixed2(false, 6667);
    assert ToFixed2(24.0) == Fixed2(false, 2400);
    assert ToFixed2(24.0 / 24.0) == Fixed2(false, 100);
  }

  /** With no pull request in the window every figure is 0: "0.00%" and "0.00". */
  lemma NoPullRequestsExample(now: int)
    ensures PrMetricsOf([], Cutoff(now, 30), 30)
              == PrMetrics(0, 0, 0, 0, Fixed2(false, 0), Fixed2(false, 0), Fixed2(false, 0), 30)
  {
  }

}
