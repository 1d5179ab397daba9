/** Metric 3: issue triage and resolution speed. The host lists the issues updated in the window;
    pull requests appear in that listing too and are dropped here. */
module IssueMetrics {
  import opened Wrappers
  import opened Seqs
  import opened Averages
  import opened Records

  /** At most this many issues get a first-comment lookup, to spare the host's rate limit. */
  const TriageSampleCap: nat := 50

  /** The host's answer to "first comment of issue n": the time of that comment, no comment yet,
      or a failure. */
  type CommentLookup = int -> Result<Option<int>, FetchError>

  /** `{ total, open, closed, avgTriageTimeHours, avgResolutionTimeHours, avgResolutionTimeDays,
      period }`, the averages as `toFixed(2)` prints them. */
  datatype IssueMetrics = IssueMetrics(
    total: nat, open: nat, closed: nat,
    avgTriageTimeHours: Fixed2, avgResolutionTimeHours: Fixed2, avgResolutionTimeDays: Fixed2,
    periodDays: int)

  predicate IsPlainIssue(i: Issue) { !i.isPullRequest }
  predicate IsListedPullRequest(i: Issue) { i.isPullRequest }
  predicate IsOpen(i: Issue) { i.state == "open" }
  predicate IsClosed(i: Issue) { i.state == "closed" }

  /** The listing without its pull requests. */
  function PlainIssues(listed: seq<Issue>): seq<Issue> { Filter(IsPlainIssue, listed) }
  function Open(issues: seq<Issue>): seq<Issue> { Filter(IsOpen, issues) }
  function Closed(issues: seq<Issue>): seq<Issue> { Filter(IsClosed, issues) }

  /** `new Date(closed_at)`: a null closing time reads as the epoch. */
  function ClosedAtMs(i: Issue): int {
    if i.closedAt.Some? then i.closedAt.value else 0
  }

  /** Creation to closure, in hours, of each issue. */
  function ResolutionTimes(closed: seq<Issue>): (hours: seq<real>)
    ensures |hours| == |closed|
    ensures forall i | 0 <= i < |closed| ::
              hours[i] * MsPerHour as real == (ClosedAtMs(closed[i]) - closed[i].createdAt) as real
  {
    seq(|closed|, i requires 0 <= i < |closed| => Hours(ClosedAtMs(closed[i]) - closed[i].createdAt))
  }

  /** The triage sample one issue contributes: its time to first comment when the lookup
      succeeds and finds a comment, nothing otherwise. */
  function TriageOf(issue: Issue, lookup: CommentLookup): (sample: seq<real>)
    ensures |sample| <= 1
    ensures |sample| == 1 <==> lookup(issue.number).Success? && lookup(issue.number).value.Some?
    ensures |sample| == 1 ==>
              sample[0] * MsPerHour as real == (lookup(issue.number).value.value - issue.createdAt) as real
  {
    match lookup(issue.number)
    case Success(Some(commentedAt)) => [Hours(commentedAt - issue.createdAt)]
    case _ => []
  }

  /** The triage samples of `issues`, in order. */
  function TriageTimesOf(issues: seq<Issue>, lookup: CommentLookup): (times: seq<real>)
    ensures |times| <= |issues|
  {
    if issues == [] then []
    else TriageTimesOf(issues[..|issues| - 1], lookup) + TriageOf(issues[|issues| - 1], lookup)
  }

  /** How many of `listed` issues are sampled: all of them, up to the cap. */
  function SampleSize(listed: nat): nat {
    if listed <= TriageSampleCap then listed else TriageSampleCap
  }

  /** The loop's state after the first `k` issues of `sample`: the numbers asked about and the
      triage samples collected. */
  ghost predicate SampledUpTo(sample: seq<Issue>, k: nat, lookup: CommentLookup, triageTimes: seq<real>, asked: seq<int>) {
    && k <= |sample|
    && |asked| == k
    && (forall j | 0 <= j < k :: asked[j] == sample[j].number)
    && triageTimes == TriageTimesOf(sample[..k], lookup)
  }

  /** One more issue of the sample is asked about and adds its own triage sample, if any. */
  lemma SampleStep(sample: seq<Issue>, k: nat, lookup: CommentLookup, triageTimes: seq<real>, asked: seq<int>)
    requires k < |sample| && SampledUpTo(sample, k, lookup, triageTimes, asked)
    ensures SampledUpTo(sample, k + 1, lookup, triageTimes + TriageOf(sample[k], lookup), asked + [sample[k].number])
  {
    assert sample[..k + 1][..k] == sample[..k];
  }

  /** The `for` loop over `issues.slice(0, 50)`: one lookup per issue, in order; a lookup that
      fails is skipped and the loop goes on. `asked` lists the issue numbers looked up. */
  method SampleTriageTimes(issues: seq<Issue>, lookup: CommentLookup)
    returns (triageTimes: seq<real>, asked: seq<int>)
    ensures |asked| == SampleSize(|issues|)
    ensures forall k | 0 <= k < |asked| :: asked[k] == issues[k].number
    ensures triageTimes == TriageTimesOf(issues[..|asked|], lookup)
    ensures |triageTimes| <= TriageSampleCap
  {
    var sample := if |issues| <= TriageSampleCap then issues else issues[..TriageSampleCap];
    triageTimes, asked := [], [];
    var k := 0;
    while k < |sample|
      invariant SampledUpTo(sample, k, lookup, triageTimes, asked)
    {
      var issue := sample[k];
      SampleStep(sample, k, lookup, triageTimes, asked);
      asked := asked + [issue.number];
      var comments := lookup(issue.number);
      if comments.Success? && comments.value.Some? {
        assert TriageOf(issue, lookup) == [Hours(comments.value.value - issue.createdAt)];
        triageTimes := triageTimes + [Hours(comments.value.value - issue.createdAt)];
      } else {
        assert triageTimes + TriageOf(issue, lookup) == triageTimes;
      }
      k := k + 1;
    }
    assert sample[..k] == issues[..|asked|];
  }

  /** What the metric reports for an issue listing and the first-comment lookups. */
  function IssueMetricsOf(listed: seq<Issue>, lookup: CommentLookup, days: int): IssueMetrics {
    var issues := PlainIssues(listed);
    var sample := issues[..SampleSize(|issues|)];
    var avgTriageTime := Mean(TriageTimesOf(sample, lookup));
    var avgResolutionTime := Mean(ResolutionTimes(Closed(issues)));
    IssueMetrics(|issues|, |Open(issues)|, |Closed(issues)|,
                 ToFixed2(avgTriageTime), ToFixed2(avgResolutionTime), ToFixed2(avgResolutionTime / 24.0),
                 days)
  }

  /** `getIssueMetrics`: a failed listing is re-thrown unchanged; failed comment lookups are not
      failures of the metric. */
  method GetIssueMetrics(fetched: Result<seq<Issue>, FetchError>, lookup: CommentLookup, days: int)
    returns (r: Result<IssueMetrics, FetchError>)
    ensures fetched.Failure? ==> r == Failure(fetched.error)
    ensures fetched.Success? ==> r == Success(IssueMetricsOf(fetched.value, lookup, days))
  {
    if fetched.Failure? {
      return Failure(fetched.error);
    }
    var issues := PlainIssues(fetched.value);
    var openIssues := Open(issues);
    var closedIssues := Closed(issues);
    var triageTimes, asked := SampleTriageTimes(issues, lookup);
    var avgTriageTime := Mean(triageTimes);
    var avgResolutionTime := Mean(ResolutionTimes(closedIssues));
    return Success(IssueMetrics(
      |issues|, |openIssues|, |closedIssues|,
      ToFixed2(avgTriageTime), ToFixed2(avgResolutionTime), ToFixed2(avgResolutionTime / 24.0),
      days));
  }

  /** Every listed pull request is dropped and every plain issue kept: the total is the listing
      size less the number of pull requests in it. */
  lemma IssueTotal(listed: seq<Issue>)
    ensures |PlainIssues(listed)| == |listed| - |Filter(IsListedPullRequest, listed)|
    ensures forall i | i in PlainIssues(listed) :: !i.isPullRequest
    ensures forall i | i in listed && !i.isPullRequest :: i in PlainIssues(listed)
  {
    FilterSplit(IsPlainIssue, IsListedPullRequest, listed);
    forall i | i in listed && !i.isPullRequest
      ensures i in PlainIssues(listed)
    {
      FilterMembership(IsPlainIssue, listed, i);
    }
  }

  /** Open and closed never overlap, and cover the issues when every state is one of the two. */
  lemma OpenClosedSplit(issues: seq<Issue>)
    ensures |Open(issues)| + |Closed(issues)| <= |issues|
    ensures (forall i | i in issues :: i.state == "open" || i.state == "closed") ==>
              |Open(issues)| + |Closed(issues)| == |issues|
  {
    FilterCount2(IsOpen, IsClosed, issues);
  }

  /** The triage samples of two runs of issues are those of each run, one after the other. */
  lemma {:induction false} TriageTimesAppend(a: seq<Issue>, b: seq<Issue>, lookup: CommentLookup)
    ensures TriageTimesOf(a + b, lookup) == TriageTimesOf(a, lookup) + TriageTimesOf(b, lookup)
    decreases |b|
  {
    if b == [] {
      assert a + b == a;
    } else {
      var init, last := b[..|b| - 1], b[|b| - 1];
      assert (a + b)[..|a + b| - 1] == a + init;
      TriageTimesAppend(a, init, lookup);
    }
  }

  /** An issue whose lookup fails, or finds no comment, adds nothing: the samples of the others
      are as if it were not there. */
  lemma TriageSkipsFailedLookup(before: seq<Issue>, issue: Issue, after: seq<Issue>, lookup: CommentLookup)
    requires lookup(issue.number).Failure? || lookup(issue.number) == Success(None)
    ensures TriageTimesOf(before + [issue] + after, lookup) == TriageTimesOf(before + after, lookup)
  {
    var withIssue := before + [issue];
    assert TriageTimesOf([issue], lookup) == [] by {
      assert [issue][..0] == [];
      assert TriageOf(issue, lookup) == [];
    }
    TriageTimesAppend(before, [issue], lookup);
    assert TriageTimesOf(withIssue, lookup) == TriageTimesOf(before, lookup);
    TriageTimesAppend(withIssue, after, lookup);
    TriageTimesAppend(before, after, lookup);
  }

  /** The sample has one entry per sampled issue whose first comment was found, and the average
      triage time is 0 when there is none. */
  lemma {:induction false} TriageSampleSize(issues: seq<Issue>, lookup: CommentLookup)
    ensures |TriageTimesOf(issues, lookup)| == |Filter((i: Issue) => lookup(i.number).Success? && lookup(i.number).value.Some?, issues)|
    ensures |Filter((i: Issue) => lookup(i.number).Success? && lookup(i.number).value.Some?, issues)| == 0 ==>
              Mean(TriageTimesOf(issues, lookup)) == 0.0
  {
    var answered := (i: Issue) => lookup(i.number).Success? && lookup(i.number).value.Some?;
    if issues != [] {
      var init, last := issues[..|issues| - 1], issues[|issues| - 1];
      assert issues == init + [last];
      TriageSampleSize(init, lookup);
      FilterAppend(answered, init, [last]);
      assert Filter(answered, [last]) == if answered(last) then [last] else [];
    }
  }

  /** Average resolution time is taken over every closed issue: 0 when none is closed, and
      otherwise within any bounds of the individual resolution times; the figure in days is the
      one in hours over 24. */
  lemma ResolutionTimeBounds(issues: seq<Issue>, lo: real, hi: real)
    requires forall i | i in Closed(issues) :: lo <= Hours(ClosedAtMs(i) - i.createdAt) <= hi
    ensures |Closed(issues)| == 0 ==> Mean(ResolutionTimes(Closed(issues))) == 0.0
    ensures |Closed(issues)| > 0 ==> lo <= Mean(ResolutionTimes(Closed(issues))) <= hi
  {
    var closed := Closed(issues);
    var times := ResolutionTimes(closed);
    if |closed| > 0 {
      forall k | 0 <= k < |times| ensures lo <= times[k] <= hi {
        assert closed[k] in closed;
      }
      MeanBounds(times, lo, hi);
    }
  }

  /** One closed issue and one open issue, no pull requests and no comments: 2 in total, 1 open,
      1 closed, no triage sample, and a one-day resolution. */
  lemma OneClosedOneOpenExample(now: int)
    ensures var yesterday := now - MsPerDay;
            var closed := Issue(1, yesterday, Some(now), "closed", false);
            var open := Issue(2, yesterday, None, "open", false);
            IssueMetricsOf([closed, open], _ => Success(None), 30)
              == IssueMetrics(2, 1, 1, Fixed2(false, 0), Fixed2(false, 2400), Fixed2(false, 100), 30)
  {
    var yesterday := now - MsPerDay;
    var closed := Issue(1, yesterday, Some(now), "closed", false);
    var open := Issue(2, yesterday, None, "open", false);
    var listed := [closed, open];
    var lookup: CommentLookup := _ => Success(None);
    OneClosedOneOpenClasses(closed, open);
    assert TriageTimesOf(listed, lookup) == [] by {
      assert listed[..1] == [closed] && [closed][..0] == [];
    }
    assert listed[..SampleSize(2)] == listed;
    DayLongResolution(closed);
  }

  /** A closed issue and an open one, neither a pull request, are one of each. */
  lemma OneClosedOneOpenClasses(closed: Issue, open: Issue)
    requires closed.state == "closed" && !closed.isPullRequest
    requires open.state == "open" && !open.isPullRequest
    ensures PlainIssues([closed, open]) == [closed, open]
    ensures Open([closed, open]) == [open]
    ensures Closed([closed, open]) == [closed]
  {
    var listed := [closed, open];
    FilterAll(IsPlainIssue, listed);
    assert listed == [closed] + [open];
    assert Open(listed) == [open] by {
      FilterAppend(IsOpen, [closed], [open]);
      FilterNone(IsOpen, [closed]);
      FilterAll(IsOpen, [open]);
    }
    assert Closed(listed) == [closed] by {
      FilterAppend(IsClosed, [closed], [open]);
      FilterAll(IsClosed, [closed]);
      FilterNone(IsClosed, [open]);
    }
  }

  /** An issue closed a day after it was opened takes 24 hours on average. */
  lemma DayLongResolution(closed: Issue)
    requires closed.closedAt == Some(closed.createdAt + MsPerDay)
    ensures Mean(ResolutionTimes([closed])) == 24.0
  {
    assert ResolutionTimes([closed]) == [24.0];
    assert Mean([24.0]) == 24.0 by { assert [24.0][..0] == []; }
  }

  /** The pull request in a listing of one issue and one pull request is not counted. */
  lemma PullRequestDroppedExample(now: int)
    ensures var issue := Issue(1, now, None, "open", false);
            var pr := Issue(2, now, None, "open", true);
            PlainIssues([issue, pr]) == [issue]
  {
    var issue := Issue(1, now, None, "open", false);
    var pr := Issue(2, now, None, "open", true);
    assert [issue, pr] == [issue] + [pr];
    FilterAppend(IsPlainIssue, [issue], [pr]);
    FilterAll(IsPlainIssue, [issue]);
    FilterNone(IsPlainIssue, [pr]);
  }

}
