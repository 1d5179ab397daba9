/** Metric 4: contribution trends. Commits and pull requests are joined under one identity per
    contributor, and the contributors are ranked by how much they did. */
module ContributionTrends {
  import opened Wrappers
  import opened Seqs
  import opened Records
  import CommitMetrics
  import PullRequestMetrics

  /** The per-identity counters `{ commits, prsCreated, prsReviewed }`. */
  datatype Stat = Stat(commits: nat, prsCreated: nat, prsReviewed: nat)

  /** One ranked entry `{ user, commits, prsCreated, prsReviewed, totalActivity }`. */
  datatype Contributor = Contributor(user: string, commits: nat, prsCreated: nat, prsReviewed: nat, totalActivity: nat)

  /** `{ contributors, totalContributors, period }`; the period is kept as its number of days. */
  datatype Trends = Trends(contributors: seq<Contributor>, totalContributors: nat, periodDays: int)

  /** The identity of each pull request, in order. */
  function PullRequestKeys(prs: seq<PullRequest>): seq<string> {
    seq(|prs|, i requires 0 <= i < |prs| => PullRequestAuthorKey(prs[i]))
  }

  /** The entry for `k`, created empty when missing. */
  function Touch(stats: map<string, Stat>, k: string): (r: map<string, Stat>)
    ensures r.Keys == stats.Keys + {k}
  {
    if k in stats then stats else stats[k := Stat(0, 0, 0)]
  }

  /** One commit by `author`: its entry, created empty when missing, counts one more commit. */
  function CreditCommit(stats: map<string, Stat>, author: string): map<string, Stat> {
    var s := Touch(stats, author);
    s[author := s[author].(commits := s[author].commits + 1)]
  }

  /** One pull request by `author`: its entry, created empty when missing, counts one more pull
      request created. */
  function CreditPullRequest(stats: map<string, Stat>, author: string): map<string, Stat> {
    var s := Touch(stats, author);
    s[author := s[author].(prsCreated := s[author].prsCreated + 1)]
  }

  /** The counters after the commit identities `ck` have been credited in order. */
  function CommitStatsOf(ck: seq<string>): (stats: map<string, Stat>)
    ensures forall k | k in stats :: k in ck
    ensures forall k | k in ck :: k in stats
  {
    if ck == [] then map[]
    else
      assert ck == ck[..|ck| - 1] + [ck[|ck| - 1]];
      CreditCommit(CommitStatsOf(ck[..|ck| - 1]), ck[|ck| - 1])
  }

  /** The counters after the commit identities `ck` and then the pull-request identities `pk`
      have been credited in order. */
  function StatsOf(ck: seq<string>, pk: seq<string>): (stats: map<string, Stat>)
    ensures forall k | k in stats :: k in ck || k in pk
    ensures forall k | k in ck || k in pk :: k in stats
  {
    if pk == [] then CommitStatsOf(ck)
    else
      assert pk == pk[..|pk| - 1] + [pk[|pk| - 1]];
      CreditPullRequest(StatsOf(ck, pk[..|pk| - 1]), pk[|pk| - 1])
  }

  lemma {:induction false} CommitStatsCounts(ck: seq<string>)
    ensures forall k | k in CommitStatsOf(ck) :: CommitStatsOf(ck)[k] == Stat(Count(ck, k), 0, 0)
  {
    if ck != [] {
      var init, last := ck[..|ck| - 1], ck[|ck| - 1];
      assert ck == init + [last];
      CommitStatsCounts(init);
      forall k | k in CommitStatsOf(ck)
        ensures CommitStatsOf(ck)[k] == Stat(Count(ck, k), 0, 0)
      {
        CountSnoc(init, last, k);
      }
    }
  }

  /** Each identity's entry holds exactly its number of commits and of pull requests, and no
      review. */
  lemma {:induction false} StatsCounts(ck: seq<string>, pk: seq<string>)
    ensures forall k | k in StatsOf(ck, pk) :: StatsOf(ck, pk)[k] == Stat(Count(ck, k), Count(pk, k), 0)
  {
    if pk == [] {
      CommitStatsCounts(ck);
    } else {
      var init, last := pk[..|pk| - 1], pk[|pk| - 1];
      assert pk == init + [last];
      StatsCounts(ck, init);
      forall k | k in StatsOf(ck, pk)
        ensures StatsOf(ck, pk)[k] == Stat(Count(ck, k), Count(pk, k), 0)
      {
        CountSnoc(init, last, k);
      }
    }
  }

  /** One more commit identity, read off a prefix of `ck`: a new identity joins the key order
      and the counters are credited. */
  lemma CommitPrefixStep(ck: seq<string>, i: nat, order: seq<string>, stats: map<string, Stat>)
    requires i < |ck|
    requires order == FirstSeen(ck[..i]) && stats == CommitStatsOf(ck[..i])
    ensures FirstSeen(ck[..i + 1]) == if ck[i] in stats then order else order + [ck[i]]
    ensures CommitStatsOf(ck[..i + 1]) == CreditCommit(stats, ck[i])
  {
    assert ck[..i + 1] == ck[..i] + [ck[i]];
    FirstSeenSnoc(ck[..i], ck[i]);
  }

  /** The state after the commit identities `ck` and the first `j` pull-request identities of
      `pk`: the key order and the counters. */
  ghost predicate CreditedUpTo(ck: seq<string>, pk: seq<string>, j: nat, order: seq<string>, stats: map<string, Stat>) {
    j <= |pk| && order == FirstSeen(ck + pk[..j]) && stats == StatsOf(ck, pk[..j])
  }

  /** One more pull-request identity, read off `pk`: a new identity joins the key order and the
      counters are credited. */
  lemma PullRequestPrefixStep(ck: seq<string>, pk: seq<string>, j: nat, order: seq<string>, stats: map<string, Stat>)
    requires j < |pk| && CreditedUpTo(ck, pk, j, order, stats)
    ensures CreditedUpTo(ck, pk, j + 1, if pk[j] in stats then order else order + [pk[j]],
                         CreditPullRequest(stats, pk[j]))
  {
    var done, x := pk[..j], pk[j];
    assert pk[..j + 1] == done + [x];
    StatsOfSnoc(ck, done, x);
    assert ck + pk[..j + 1] == (ck + done) + [x];
    CreditedKeys(ck, done, x);
    FirstSeenSnoc(ck + done, x);
  }

  /** Crediting one more pull-request identity. */
  lemma StatsOfSnoc(ck: seq<string>, pk: seq<string>, x: string)
    ensures StatsOf(ck, pk + [x]) == CreditPullRequest(StatsOf(ck, pk), x)
  {
    assert (pk + [x])[..|pk|] == pk;
  }

  /** An identity has counters exactly when it occurs among those credited so far. */
  lemma CreditedKeys(ck: seq<string>, pk: seq<string>, x: string)
    ensures x in StatsOf(ck, pk) <==> x in ck + pk
  {
    assert x in ck + pk <==> x in ck || x in pk;
  }

  /** The first `forEach`: every commit identity gets an entry, created empty when missing,
      and its `commits` counter goes up by one. `order` is the order in which the object
      received its keys. */
  method CountCommits(commits: seq<Commit>) returns (order: seq<string>, stats: map<string, Stat>)
    ensures var ck := CommitMetrics.AuthorKeys(commits);
            order == FirstSeen(ck) && stats == CommitStatsOf(ck)
  {
    ghost var ck := CommitMetrics.AuthorKeys(commits);
    order, stats := [], map[];
    var i := 0;
    while i < |commits|
      invariant 0 <= i <= |commits|
      invariant order == FirstSeen(ck[..i]) && stats == CommitStatsOf(ck[..i])
    {
      var author := AuthorKey(commits[i]);
      assert author == ck[i];
      CommitPrefixStep(ck, i, order, stats);
      if author !in stats {
        order := order + [author];
      }
      stats := CreditCommit(stats, author);
      i := i + 1;
    }
    assert ck[..i] == ck;
  }

  /** The second `forEach`, on top of the commit counters for `ck`: every pull-request identity
      gets an entry, created empty when missing, and its `prsCreated` counter goes up by one. */
  method CountPullRequests(ghost ck: seq<string>, order0: seq<string>, stats0: map<string, Stat>,
                           recentPRs: seq<PullRequest>)
    returns (order: seq<string>, stats: map<string, Stat>)
    requires order0 == FirstSeen(ck) && stats0 == CommitStatsOf(ck)
    ensures var pk := PullRequestKeys(recentPRs);
            order == FirstSeen(ck + pk) && stats == StatsOf(ck, pk)
  {
    ghost var pk := PullRequestKeys(recentPRs);
    order, stats := order0, stats0;
    assert CreditedUpTo(ck, pk, 0, order, stats) by {
      assert ck + pk[..0] == ck && pk[..0] == [];
    }
    var j := 0;
    while j < |recentPRs|
      invariant CreditedUpTo(ck, pk, j, order, stats)
    {
      var author := PullRequestAuthorKey(recentPRs[j]);
      assert author == pk[j];
      PullRequestPrefixStep(ck, pk, j, order, stats);
      if author !in stats {
        order := order + [author];
      }
      stats := CreditPullRequest(stats, author);
      j := j + 1;
    }
    assert pk[..j] == pk;
  }

  /** The entry `Object.entries(...).map(...)` builds for one identity. */
  function Entry(user: string, stat: Stat): Contributor {
    Contributor(user, stat.commits, stat.prsCreated, stat.prsReviewed,
                stat.commits + stat.prsCreated + stat.prsReviewed)
  }

  /** The entries of the counters, in key order. */
  function Entries(order: seq<string>, stats: map<string, Stat>): seq<Contributor>
    requires forall k | k in order :: k in stats
  {
    seq(|order|, i requires 0 <= i < |order| => Entry(order[i], stats[order[i]]))
  }

  /** Sorted by activity, most active first. */
  predicate Ranked(cs: seq<Contributor>) {
    forall i, j | 0 <= i < j < |cs| :: cs[i].totalActivity >= cs[j].totalActivity
  }

  /** No identity appears twice. */
  predicate UniqueUsers(cs: seq<Contributor>) {
    forall i, j | 0 <= i < j < |cs| :: cs[i].user != cs[j].user
  }

  /** `x` placed before the first entry that is not more active than it. */
  function Insert(x: Contributor, t: seq<Contributor>): (r: seq<Contributor>)
    ensures |r| == |t| + 1
    ensures multiset(r) == multiset(t) + multiset{x}
  {
    if t == [] || t[0].totalActivity <= x.totalActivity then [x] + t
    else
      assert t == [t[0]] + t[1..];
      [t[0]] + Insert(x, t[1..])
  }

  /** `.sort((a, b) => b.totalActivity - a.totalActivity)`, which is stable: entries of equal
      activity keep their relative order. */
  function Rank(cs: seq<Contributor>): (r: seq<Contributor>)
    ensures |r| == |cs|
    ensures multiset(r) == multiset(cs)
  {
    if cs == [] then []
    else
      assert cs == [cs[0]] + cs[1..];
      Insert(cs[0], Rank(cs[1..]))
  }

  /** The sum of `totalActivity` over `cs`. */
  function ActivitySum(cs: seq<Contributor>): nat {
    if cs == [] then 0 else cs[0].totalActivity + ActivitySum(cs[1..])
  }

  /** The window test, the counters and the ranking, for the fetched commits and pull
      requests. */
  function TrendsOf(commits: seq<Commit>, allPRs: seq<PullRequest>, since: int, days: int): Trends {
    var ck := CommitMetrics.AuthorKeys(commits);
    var pk := PullRequestKeys(PullRequestMetrics.Recent(allPRs, since));
    var contributors := Rank(Entries(FirstSeen(ck + pk), StatsOf(ck, pk)));
    Trends(contributors, |contributors|, days)
  }

  /** `getContributionTrends`: commits are fetched first and their failure is re-thrown before
      pull requests are asked for; a failed pull-request fetch is re-thrown next. */
  method GetContributionTrends(
    commitsFetched: Result<seq<Commit>, FetchError>, prsFetched: Result<seq<PullRequest>, FetchError>,
    now: int, days: int)
    returns (r: Result<Trends, FetchError>)
    ensures commitsFetched.Failure? ==> r == Failure(commitsFetched.error)
    ensures commitsFetched.Success? && prsFetched.Failure? ==> r == Failure(prsFetched.error)
    ensures commitsFetched.Success? && prsFetched.Success? ==>
              r == Success(TrendsOf(commitsFetched.value, prsFetched.value, Cutoff(now, days), days))
  {
    if commitsFetched.Failure? {
      return Failure(commitsFetched.error);
    }
    if prsFetched.Failure? {
      return Failure(prsFetched.error);
    }
    var recentPRs := PullRequestMetrics.Recent(prsFetched.value, Cutoff(now, days));
    var order, stats := CountCommits(commitsFetched.value);
    order, stats := CountPullRequests(CommitMetrics.AuthorKeys(commitsFetched.value), order, stats, recentPRs);
    var contributors := Rank(Entries(order, stats));
    return Success(Trends(contributors, |contributors|, days));
  }

  /** Inserting into a ranked list keeps it ranked. */
  lemma {:induction false} InsertRanked(x: Contributor, t: seq<Contributor>)
    requires Ranked(t)
    ensures Ranked(Insert(x, t))
  {
    if !(t == [] || t[0].totalActivity <= x.totalActivity) {
      var rest := t[1..];
      assert Ranked(rest);
      InsertRanked(x, rest);
      var r := Insert(x, rest);
      forall y | y in r
        ensures t[0].totalActivity >= y.totalActivity
      {
        assert y in multiset(r);
        if y != x {
          assert y in rest;
        }
      }
    }
  }

  /** The ranking lists the most active first. */
  lemma {:induction false} RankRanked(cs: seq<Contributor>)
    ensures Ranked(Rank(cs))
  {
    if cs != [] {
      RankRanked(cs[1..]);
      InsertRanked(cs[0], Rank(cs[1..]));
    }
  }

  /** `HasActivity(v)` selects the entries whose activity is `v`. */
  function HasActivity(v: nat): Contributor -> bool {
    (c: Contributor) => c.totalActivity == v
  }

  /** Inserting `x` does not reorder it against entries of the same activity. */
  lemma {:induction false} InsertStable(x: Contributor, t: seq<Contributor>, v: nat)
    ensures Filter(HasActivity(v), Insert(x, t)) == Filter(HasActivity(v), [x] + t)
  {
    if !(t == [] || t[0].totalActivity <= x.totalActivity) {
      var p, t0, rest := HasActivity(v), t[0], t[1..];
      assert t == [t0] + rest;
      InsertStable(x, rest, v);
      FilterCons(p, t0, Insert(x, rest));
      FilterCons(p, x, rest);
      FilterCons(p, x, t);
      FilterCons(p, t0, rest);
    }
  }

  /** The ranking is stable: the entries of any one activity keep their order. */
  lemma {:induction false} RankStable(cs: seq<Contributor>, v: nat)
    ensures Filter(HasActivity(v), Rank(cs)) == Filter(HasActivity(v), cs)
  {
    if cs != [] {
      var p := HasActivity(v);
      RankStable(cs[1..], v);
      InsertStable(cs[0], Rank(cs[1..]), v);
      FilterCons(p, cs[0], Rank(cs[1..]));
      FilterCons(p, cs[0], cs[1..]);
      assert cs == [cs[0]] + cs[1..];
    }
  }

  /** An identity that none of `t` has can be put in front of it. */
  lemma ConsUnique(x: Contributor, t: seq<Contributor>)
    requires UniqueUsers(t)
    requires forall y | y in t :: y.user != x.user
    ensures UniqueUsers([x] + t)
  {
    forall i, j | 0 <= i < j < |[x] + t|
      ensures ([x] + t)[i].user != ([x] + t)[j].user
    {
      if i == 0 {
        assert ([x] + t)[j] in t;
      } else {
        assert ([x] + t)[i] == t[i - 1] && ([x] + t)[j] == t[j - 1];
      }
    }
  }

  /** Inserting a new identity keeps identities unique. */
  lemma {:induction false} InsertUnique(x: Contributor, t: seq<Contributor>)
    requires UniqueUsers(t)
    requires forall y | y in t :: y.user != x.user
    ensures UniqueUsers(Insert(x, t))
  {
    if t == [] || t[0].totalActivity <= x.totalActivity {
      ConsUnique(x, t);
    } else {
      var rest := t[1..];
      assert UniqueUsers(rest) by {
        forall i, j | 0 <= i < j < |rest| ensures rest[i].user != rest[j].user {
          assert rest[i] == t[i + 1] && rest[j] == t[j + 1];
        }
      }
      assert forall y | y in rest :: y in t;
      InsertUnique(x, rest);
      var r := Insert(x, rest);
      forall y | y in r
        ensures y.user != t[0].user
      {
        assert y in multiset(r);
        if y == x {
          assert t[0] in t;
        } else {
          assert y in rest;
          var j :| 0 <= j < |rest| && rest[j] == y;
          assert t[j + 1] == y;
        }
      }
      ConsUnique(t[0], r);
    }
  }

  /** Ranking entries of distinct identities keeps them distinct. */
  lemma {:induction false} RankUnique(cs: seq<Contributor>)
    requires UniqueUsers(cs)
    ensures UniqueUsers(Rank(cs))
  {
    if cs != [] {
      var rest := cs[1..];
      assert UniqueUsers(rest);
      RankUnique(rest);
      forall y | y in Rank(rest)
        ensures y.user != cs[0].user
      {
        assert y in multiset(Rank(rest));
        var j :| 0 <= j < |rest| && rest[j] == y;
        assert cs[j + 1] == y;
      }
      InsertUnique(cs[0], Rank(rest));
    }
  }

  lemma {:induction false} ActivitySumAppend(a: seq<Contributor>, b: seq<Contributor>)
    ensures ActivitySum(a + b) == ActivitySum(a) + ActivitySum(b)
  {
    if a == [] {
      assert a + b == b;
    } else {
      assert (a + b)[1..] == a[1..] + b;
      ActivitySumAppend(a[1..], b);
    }
  }

  lemma {:induction false} InsertSum(x: Contributor, t: seq<Contributor>)
    ensures ActivitySum(Insert(x, t)) == x.totalActivity + ActivitySum(t)
  {
    if !(t == [] || t[0].totalActivity <= x.totalActivity) {
      InsertSum(x, t[1..]);
      assert ([t[0]] + Insert(x, t[1..]))[1..] == Insert(x, t[1..]);
    } else {
      assert ([x] + t)[1..] == t;
    }
  }

  /** Ranking neither adds nor loses activity. */
  lemma {:induction false} RankSum(cs: seq<Contributor>)
    ensures ActivitySum(Rank(cs)) == ActivitySum(cs)
  {
    if cs != [] {
      RankSum(cs[1..]);
      InsertSum(cs[0], Rank(cs[1..]));
    }
  }

  /** The entries' activities add up to each identity's commits and pull requests. */
  lemma {:induction false} EntriesSum(order: seq<string>, stats: map<string, Stat>, ck: seq<string>, pk: seq<string>)
    requires forall k | k in order :: k in stats && stats[k] == Stat(Count(ck, k), Count(pk, k), 0)
    ensures ActivitySum(Entries(order, stats)) == CountSum(order, ck) + CountSum(order, pk)
  {
    if order != [] {
      var init, last := order[..|order| - 1], order[|order| - 1];
      assert forall k | k in init :: k in order;
      EntriesSum(init, stats, ck, pk);
      var e := Entry(last, stats[last]);
      assert Entries(order, stats) == Entries(init, stats) + [e];
      ActivitySumAppend(Entries(init, stats), [e]);
      assert ActivitySum([e]) == e.totalActivity;
    }
  }

  /** Every commit and every pull request of the window counts once towards exactly one
      contributor: the total activity is their number. */
  lemma TrendsActivitySum(commits: seq<Commit>, allPRs: seq<PullRequest>, since: int, days: int)
    ensures ActivitySum(TrendsOf(commits, allPRs, since, days).contributors)
              == |commits| + |PullRequestMetrics.Recent(allPRs, since)|
  {
    var ck := CommitMetrics.AuthorKeys(commits);
    var pk := PullRequestKeys(PullRequestMetrics.Recent(allPRs, since));
    var order := FirstSeen(ck + pk);
    RankSum(Entries(order, StatsOf(ck, pk)));
    StatsCounts(ck, pk);
    EntriesSum(order, StatsOf(ck, pk), ck, pk);
    assert forall x | x in ck :: x in ck + pk;
    assert forall x | x in pk :: x in ck + pk;
    CountSumCovers(order, ck);
    CountSumCovers(order, pk);
  }

  /** Ranking keeps exactly the entries it is given. */
  lemma RankMembers(cs: seq<Contributor>, c: Contributor)
    ensures c in Rank(cs) <==> c in cs
  {
    assert c in Rank(cs) <==> c in multiset(Rank(cs));
  }

  /** There is one contributor per identity met, none twice, and `totalContributors` is how
      many there are. */
  lemma TrendsIdentities(commits: seq<Commit>, allPRs: seq<PullRequest>, since: int, days: int)
    ensures var ck := CommitMetrics.AuthorKeys(commits);
            var pk := PullRequestKeys(PullRequestMetrics.Recent(allPRs, since));
            var t := TrendsOf(commits, allPRs, since, days);
            && t.totalContributors == |t.contributors| == |FirstSeen(ck + pk)|
            && UniqueUsers(t.contributors)
            && (forall k | k in ck + pk :: exists c | c in t.contributors :: c.user == k)
  {
    var ck := CommitMetrics.AuthorKeys(commits);
    var pk := PullRequestKeys(PullRequestMetrics.Recent(allPRs, since));
    var order := FirstSeen(ck + pk);
    var entries := Entries(order, StatsOf(ck, pk));
    assert UniqueUsers(entries);
    RankUnique(entries);
    forall k | k in ck + pk
      ensures exists c | c in Rank(entries) :: c.user == k
    {
      var i :| 0 <= i < |order| && order[i] == k;
      RankMembers(entries, entries[i]);
    }
  }

  /** Each contributor is an identity met, with its own numbers of commits and of pull requests
      created, no review counted, and an activity that adds the two. */
  lemma TrendsContributors(commits: seq<Commit>, allPRs: seq<PullRequest>, since: int, days: int)
    ensures var ck := CommitMetrics.AuthorKeys(commits);
            var pk := PullRequestKeys(PullRequestMetrics.Recent(allPRs, since));
            forall c | c in TrendsOf(commits, allPRs, since, days).contributors ::
              && c.user in ck + pk
              && c.commits == Count(ck, c.user)
              && c.prsCreated == Count(pk, c.user)
              && c.prsReviewed == 0
              && c.totalActivity == c.commits + c.prsCreated
  {
    var ck := CommitMetrics.AuthorKeys(commits);
    var pk := PullRequestKeys(PullRequestMetrics.Recent(allPRs, since));
    var order := FirstSeen(ck + pk);
    var stats := StatsOf(ck, pk);
    var entries := Entries(order, stats);
    StatsCounts(ck, pk);
    forall c | c in Rank(entries)
      ensures c.user in ck + pk && c.commits == Count(ck, c.user) && c.prsCreated == Count(pk, c.user)
      ensures c.prsReviewed == 0 && c.totalActivity == c.commits + c.prsCreated
    {
      RankMembers(entries, c);
      var i :| 0 <= i < |entries| && entries[i] == c;
      assert order[i] in stats;
    }
  }

  /** The contributors are ranked most active first, and those of equal activity appear in the
      order in which their identity was first met (commits first, then pull requests). */
  lemma TrendsOrder(commits: seq<Commit>, allPRs: seq<PullRequest>, since: int, days: int, v: nat)
    ensures var ck := CommitMetrics.AuthorKeys(commits);
            var pk := PullRequestKeys(PullRequestMetrics.Recent(allPRs, since));
            var t := TrendsOf(commits, allPRs, since, days);
            && Ranked(t.contributors)
            && Filter(HasActivity(v), t.contributors)
                 == Filter(HasActivity(v), Entries(FirstSeen(ck + pk), StatsOf(ck, pk)))
  {
    var ck := CommitMetrics.AuthorKeys(commits);
    var pk := PullRequestKeys(PullRequestMetrics.Recent(allPRs, since));
    var entries := Entries(FirstSeen(ck + pk), StatsOf(ck, pk));
    RankRanked(entries);
    RankStable(entries, v);
  }

  /** The identities `user1`, `user1`, `user2`: two keys, counted 2 and 1. */
  lemma TwoToOneKeys(ck: seq<string>)
    requires ck == ["user1", "user1", "user2"]
    ensures FirstSeen(ck) == ["user1", "user2"]
    ensures Count(ck, "user1") == 2 && Count(ck, "user2") == 1
  {
    assert "user1" != "user2" by {
      assert "user1"[4] != "user2"[4];
    }
    assert ck[..2] == ["user1", "user1"] && ck[..2][..1] == ["user1"] && ck[..2][..1][..0] == [];
  }

  lemma TwoToOneRank(stats: map<string, Stat>)
    requires "user1" in stats && stats["user1"] == Stat(2, 0, 0)
    requires "user2" in stats && stats["user2"] == Stat(1, 0, 0)
    ensures Rank(Entries(["user1", "user2"], stats))
              == [Contributor("user1", 2, 0, 0, 2), Contributor("user2", 1, 0, 0, 1)]
  {
    var e1, e2 := Contributor("user1", 2, 0, 0, 2), Contributor("user2", 1, 0, 0, 1);
    assert Entries(["user1", "user2"], stats) == [e1, e2];
    assert [e1, e2][1..] == [e2] && [e2][1..] == [];
  }

  /** Two commits by `user1` and one by `user2`, no pull request: `user1` comes first with 2
      commits, and there are 2 contributors. */
  lemma RankedByActivityExample(now: int)
    ensures var c1 := Commit(Some("user1"), Some("User One"), now);
            var c2 := Commit(Some("user2"), Some("User Two"), now);
            var t := TrendsOf([c1, c1, c2], [], Cutoff(now, 30), 30);
            && t.contributors[0] == Contributor("user1", 2, 0, 0, 2)
            && t.totalContributors == 2
  {
    var c1 := Commit(Some("user1"), Some("User One"), now);
    var c2 := Commit(Some("user2"), Some("User Two"), now);
    var ck := CommitMetrics.AuthorKeys([c1, c1, c2]);
    assert ck == ["user1", "user1", "user2"];
    var pk := PullRequestKeys(PullRequestMetrics.Recent([], Cutoff(now, 30)));
    assert pk == [];
    assert ck + pk == ck;
    TwoToOneKeys(ck);
    StatsCounts(ck, pk);
    TwoToOneRank(StatsOf(ck, pk));
  }

  /** Commits by `user1` and `user2` and a recent pull request by `user1`: 2 contributors. */
  lemma JoinedIdentitiesExample(now: int)
    ensures var c1 := Commit(Some("user1"), Some("User One"), now);
            var c2 := Commit(Some("user2"), Some("User Two"), now);
            var pr := PullRequest(now, None, "open", Some("user1"));
            TrendsOf([c1, c2], [pr], Cutoff(now, 30), 30).totalContributors == 2
  {
    var c1 := Commit(Some("user1"), Some("User One"), now);
    var c2 := Commit(Some("user2"), Some("User Two"), now);
    var pr := PullRequest(now, None, "open", Some("user1"));
    var ck := CommitMetrics.AuthorKeys([c1, c2]);
    assert ck == ["user1", "user2"];
    assert PullRequestMetrics.Recent([pr], Cutoff(now, 30)) == [pr] by {
      FilterAll(PullRequestMetrics.CreatedSince(Cutoff(now, 30)), [pr]);
    }
    var pk := PullRequestKeys([pr]);
    assert pk == ["user1"];
    var keys := ck + pk;
    assert keys == ["user1", "user2", "user1"];
    assert FirstSeen(keys) == ["user1", "user2"] by {
      assert keys[..2] == ["user1", "user2"] && keys[..2][..1] == ["user1"] && keys[..2][..1][..0] == [];
    }
  }

}
