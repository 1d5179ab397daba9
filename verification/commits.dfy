/** Metric 1: the number of commits per author identity in the window. The commits arrive
    already restricted to the window by the host (`since`), so no filtering happens here. */
module CommitMetrics {
  import opened Wrappers
  import opened Seqs
  import opened Counters
  import opened Records

  /** `{ total, byUser, period }`; the period is kept as its number of days. */
  datatype CommitsPerUser = CommitsPerUser(total: nat, byUser: map<string, nat>, periodDays: int)

  /** The identity of each commit, in order. */
  function AuthorKeys(commits: seq<Commit>): seq<string> {
    seq(|commits|, i requires 0 <= i < |commits| => AuthorKey(commits[i]))
  }

  /** What the metric reports for a fetched list of commits. */
  function CommitsPerUserOf(commits: seq<Commit>, days: int): CommitsPerUser {
    CommitsPerUser(|commits|, TallyOf(AuthorKeys(commits)), days)
  }

  /** The `forEach` that bumps `commitsPerUser[author]` once per commit. */
  method CountCommitsPerUser(commits: seq<Commit>, days: int) returns (r: CommitsPerUser)
    ensures r == CommitsPerUserOf(commits, days)
    ensures r.total == |commits| && SumValues(r.byUser) == r.total
    ensures forall k | k in r.byUser :: r.byUser[k] >= 1
  {
    ghost var keys := AuthorKeys(commits);
    var commitsPerUser: map<string, nat> := map[];
    var i := 0;
    while i < |commits|
      invariant 0 <= i <= |commits|
      invariant commitsPerUser == TallyOf(keys[..i])
    {
      var author := AuthorKey(commits[i]);
      TallyStep(keys, i);
      commitsPerUser := Bump(commitsPerUser, author);
      i := i + 1;
    }
    assert keys[..|commits|] == keys;
    SumValuesTally(keys);
    r := CommitsPerUser(|commits|, commitsPerUser, days);
  }

  /** `getCommitsPerUser`: a failed fetch is re-thrown unchanged. */
  method GetCommitsPerUser(fetched: Result<seq<Commit>, FetchError>, days: int)
    returns (r: Result<CommitsPerUser, FetchError>)
    ensures fetched.Failure? ==> r == Failure(fetched.error)
    ensures fetched.Success? ==> r == Success(CommitsPerUserOf(fetched.value, days))
  {
    if fetched.Failure? {
      return Failure(fetched.error);
    }
    var metrics := CountCommitsPerUser(fetched.value, days);
    return Success(metrics);
  }

  /** Every commit adds exactly 1 to exactly one identity: the identities are exactly those of
      the commits, each counts its own commits, and the counts add up to the total. */
  lemma CommitsPerUserCounts(commits: seq<Commit>, days: int)
    ensures var r := CommitsPerUserOf(commits, days);
            && r.total == |commits|
            && SumValues(r.byUser) == r.total
            && (forall c | c in commits :: AuthorKey(c) in r.byUser)
            && (forall k | k in r.byUser :: r.byUser[k] == Count(AuthorKeys(commits), k) >= 1)
  {
    var keys := AuthorKeys(commits);
    SumValuesTally(keys);
    forall c | c in commits
      ensures AuthorKey(c) in keys
    {
      var i :| 0 <= i < |commits| && commits[i] == c;
      assert keys[i] == AuthorKey(c);
    }
  }

  /** Two commits by `user1` and one by `user2` give `{ user1: 2, user2: 1 }`. */
  lemma TwoUsersExample()
    ensures var c1 := Commit(Some("user1"), Some("User One"), 0);
            var c2 := Commit(Some("user2"), Some("User Two"), 0);
            CommitsPerUserOf([c1, c1, c2], 30) == CommitsPerUser(3, map["user1" := 2, "user2" := 1], 30)
  {
    var c1 := Commit(Some("user1"), Some("User One"), 0);
    var c2 := Commit(Some("user2"), Some("User Two"), 0);
    var keys := AuthorKeys([c1, c1, c2]);
    var s1, s2, s3 := ["user1"], ["user1", "user1"], ["user1", "user1", "user2"];
    assert keys == s3;
    assert s1[..0] == [] && s2[..1] == s1 && s3[..2] == s2;
    assert TallyOf(s1) == map["user1" := 1];
    assert TallyOf(s2) == map["user1" := 2];
    assert TallyOf(s3) == map["user1" := 2, "user2" := 1];
  }

  /** A commit without a linked account is counted under its author name. */
  lemma ExternalAuthorExample()
    ensures CommitsPerUserOf([Commit(None, Some("External User"), 0)], 30).byUser == map["External User" := 1]
  {
    var keys := AuthorKeys([Commit(None, Some("External User"), 0)]);
    assert keys == ["External User"];
    assert keys[..0] == [];
  }

}
