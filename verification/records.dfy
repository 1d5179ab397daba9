/** The records the remote host returns, reduced to the fields the metrics read, and the two
    rules every metric shares: who authored a record, and whether it falls in the window. */
module Records {
  import opened Wrappers

  const MsPerDay: int := 24 * 60 * 60 * 1000

  /** Any failure of a remote fetch; its message reaches the caller unchanged. */
  datatype FetchError = FetchError(message: string)

  /** A commit: `author.login` of the platform account (absent when the commit is not linked to
      an account), `commit.author.name` as written in the commit, and `commit.author.date`. */
  datatype Commit = Commit(authorLogin: Option<string>, authorName: Option<string>, authoredAt: int)

  /** A pull request: `created_at`, `merged_at` (null until merged), `state` as the host spells
      it, and `user.login`. */
  datatype PullRequest = PullRequest(createdAt: int, mergedAt: Option<int>, state: string, userLogin: Option<string>)

  /** An entry of the repository's issue listing; `isPullRequest` is set when the entry carries
      a `pull_request` object. `closedAt` is null while the issue is open. */
  datatype Issue = Issue(number: int, createdAt: int, closedAt: Option<int>, state: string, isPullRequest: bool)

  /** JavaScript truthiness of an optional string: null, undefined and "" are all false. */
  predicate Truthy(s: Option<string>) {
    s.Some? && s.value != ""
  }

  /** `c0 || c1 || ... || fallback` over optional strings. */
  function FirstTruthy(candidates: seq<Option<string>>, fallback: string): string {
    if candidates == [] then fallback
    else if Truthy(candidates[0]) then candidates[0].value
    else FirstTruthy(candidates[1..], fallback)
  }

  /** The chain yields the first truthy candidate, and the fallback when there is none. */
  lemma {:induction false} FirstTruthyChoice(candidates: seq<Option<string>>, fallback: string)
    ensures (forall i | 0 <= i < |candidates| :: !Truthy(candidates[i])) ==> FirstTruthy(candidates, fallback) == fallback
    ensures forall i | 0 <= i < |candidates| && Truthy(candidates[i]) ::
              (forall j | 0 <= j < i :: !Truthy(candidates[j])) ==> FirstTruthy(candidates, fallback) == candidates[i].value
    ensures var key := FirstTruthy(candidates, fallback);
            key == fallback || exists i | 0 <= i < |candidates| :: Truthy(candidates[i]) && key == candidates[i].value
  {
    if candidates != [] && !Truthy(candidates[0]) {
      FirstTruthyChoice(candidates[1..], fallback);
      assert forall i | 1 <= i < |candidates| :: candidates[1..][i - 1] == candidates[i];
    }
  }

  /** The identity a commit is counted under: `author?.login || commit.author.name || 'Unknown'`. */
  function AuthorKey(c: Commit): string {
    FirstTruthy([c.authorLogin, c.authorName], "Unknown")
  }

  /** The identity a pull request is counted under: `user?.login || 'Unknown'`; a pull request
      has no name to fall back on. */
  function PullRequestAuthorKey(pr: PullRequest): string {
    FirstTruthy([pr.userLogin], "Unknown")
  }

  /** The commit identity is the login when it is non-empty, otherwise the author name when that
      is non-empty, otherwise "Unknown"; the key is never empty. */
  lemma AuthorKeyResolution(c: Commit)
    ensures Truthy(c.authorLogin) ==> AuthorKey(c) == c.authorLogin.value
    ensures !Truthy(c.authorLogin) && Truthy(c.authorName) ==> AuthorKey(c) == c.authorName.value
    ensures !Truthy(c.authorLogin) && !Truthy(c.authorName) ==> AuthorKey(c) == "Unknown"
    ensures AuthorKey(c) != ""
  {
    var cs := [c.authorLogin, c.authorName];
    FirstTruthyChoice(cs, "Unknown");
    if !Truthy(c.authorLogin) && Truthy(c.authorName) {
      assert Truthy(cs[1]) && !Truthy(cs[0]);
    }
  }

  /** A pull request and a commit by the same non-empty login join under one identity; a pull
      request without a login is "Unknown" even when a commit by its author would fall back to a
      name. */
  lemma PullRequestAuthorKeyResolution(pr: PullRequest, c: Commit)
    ensures Truthy(pr.userLogin) ==> PullRequestAuthorKey(pr) == pr.userLogin.value
    ensures !Truthy(pr.userLogin) ==> PullRequestAuthorKey(pr) == "Unknown"
    ensures Truthy(pr.userLogin) && c.authorLogin == pr.userLogin ==> PullRequestAuthorKey(pr) == AuthorKey(c)
  {
    FirstTruthyChoice([pr.userLogin], "Unknown");
    AuthorKeyResolution(c);
  }

  /** The first instant of the window: `days` whole days before `now` (the calendar arithmetic of
      the local time zone is not modelled). */
  function Cutoff(now: int, days: int): (since: int)
    ensures days >= 0 ==> since <= now
    ensures now - since == days * MsPerDay
  {
    now - days * MsPerDay
  }

  /** A record is in the window when it was created at or after the cutoff. */
  predicate InWindow(createdAt: int, since: int) {
    createdAt >= since
  }

  /** A longer look-back never drops a record a shorter one keeps. */
  lemma WindowGrowsWithDays(createdAt: int, now: int, days1: int, days2: int)
    requires days1 <= days2
    requires InWindow(createdAt, Cutoff(now, days1))
    ensures InWindow(createdAt, Cutoff(now, days2))
  {
  }

}
