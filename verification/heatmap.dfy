/** Metric 5: the activity heatmap. Every commit of the window is counted once by calendar day,
    once by hour of the day and once by day of the week, all read from its authored time: the
    day as the UTC date (`toISOString`), the hour and the day of the week on the host's local
    clock (`getHours`, `getDay`). */
module ActivityHeatmap {
  import opened Wrappers
  import opened Seqs
  import opened Counters
  import opened Averages
  import opened Records

  /** Day-of-week names, indexed as `Date.prototype.getDay` numbers them (Sunday is 0). */
  const DayNames: seq<string> := ["Sunday", "Monday", "Tuesday", "Wednesday", "Thursday", "Friday", "Saturday"]

  /** The day-of-week counter as it starts: all seven names, each at 0. */
  const EmptyWeek: map<string, nat> := map name | name in DayNames :: 0

  /** `{ activityByDay, activityByHour, activityByDayOfWeek, totalCommits, period }`. A day is
      keyed by its number of whole days since 1970-01-01 (UTC). */
  datatype Heatmap = Heatmap(
    activityByDay: map<int, nat>, activityByHour: map<int, nat>, activityByDayOfWeek: map<string, nat>,
    totalCommits: nat, periodDays: int)

  /** The host's clock: the offset, in milliseconds, of its local time from UTC at each instant
      (it may change over the year). */
  type Zone = int -> int

  /** The reading of the host's local clock at instant `t`, as an instant on a UTC clock. */
  function Local(zone: Zone, t: int): int {
    t + zone(t)
  }

  /** The calendar day of a clock reading, as whole days since 1970-01-01 (rounded down, also
      before 1970). */
  function DayOf(t: int): int {
    t / MsPerDay
  }

  /** The hour of the day of a clock reading. */
  function HourOf(t: int): (hour: int)
    ensures 0 <= hour < 24
  {
    (t % MsPerDay) / MsPerHour
  }

  /** A clock reading lies in its day, and within that day in its hour. */
  lemma ClockBuckets(t: int)
    ensures DayOf(t) * MsPerDay <= t < (DayOf(t) + 1) * MsPerDay
    ensures DayOf(t) * MsPerDay + HourOf(t) * MsPerHour <= t
    ensures t < DayOf(t) * MsPerDay + (HourOf(t) + 1) * MsPerHour
  {
  }

  /** The day of the week of a clock reading; 1970-01-01 was a Thursday. */
  function WeekdayOf(t: int): string {
    DayNames[(DayOf(t) + 4) % 7]
  }

  /** Every clock reading falls on one of the seven named days. */
  lemma WeekdayName(t: int)
    ensures WeekdayOf(t) in DayNames
  {
  }

  /** The UTC day of each commit, in order. */
  function DayKeys(commits: seq<Commit>): seq<int> {
    seq(|commits|, i requires 0 <= i < |commits| => DayOf(commits[i].authoredAt))
  }

  /** The local hour of each commit, in order. */
  function HourKeys(commits: seq<Commit>, zone: Zone): seq<int> {
    seq(|commits|, i requires 0 <= i < |commits| => HourOf(Local(zone, commits[i].authoredAt)))
  }

  /** The local day of the week of each commit, in order. */
  function WeekdayKeys(commits: seq<Commit>, zone: Zone): seq<string> {
    seq(|commits|, i requires 0 <= i < |commits| => WeekdayOf(Local(zone, commits[i].authoredAt)))
  }

  /** The day-of-week counter after counting `names` on top of `EmptyWeek`. */
  function WeekOf(names: seq<string>): map<string, nat> {
    map name | name in DayNames :: Count(names, name)
  }

  /** `counter[name]++` on a counter that already has `name`. */
  function Increment(counter: map<string, nat>, name: string): (r: map<string, nat>)
    requires name in counter
    ensures r.Keys == counter.Keys && r[name] == counter[name] + 1
  {
    counter[name := counter[name] + 1]
  }

  /** Counting one more name of the week increments its entry. */
  lemma WeekOfSnoc(names: seq<string>, name: string)
    requires name in DayNames
    ensures WeekOf(names + [name]) == Increment(WeekOf(names), name)
  {
    var before, after := WeekOf(names), WeekOf(names + [name]);
    forall n | n in DayNames
      ensures after[n] == Increment(before, name)[n]
    {
      CountSnoc(names, name, n);
    }
    assert after.Keys == Increment(before, name).Keys;
  }

  /** Every counted name adds exactly 1 to the day-of-week counter. */
  lemma {:induction false} WeekOfSum(names: seq<string>)
    requires forall n | n in names :: n in DayNames
    ensures SumValues(WeekOf(names)) == |names|
  {
    if names == [] {
      SumValuesZero(WeekOf(names));
    } else {
      var init, last := names[..|names| - 1], names[|names| - 1];
      assert names == init + [last];
      assert forall n | n in init :: n in names;
      WeekOfSum(init);
      WeekOfSnoc(init, last);
      SumValuesBump(WeekOf(init), last);
    }
  }

  /** What the metric reports for the fetched commits. */
  function HeatmapOf(commits: seq<Commit>, zone: Zone, days: int): Heatmap {
    Heatmap(TallyOf(DayKeys(commits)), TallyOf(HourKeys(commits, zone)), WeekOf(WeekdayKeys(commits, zone)),
            |commits|, days)
  }

  lemma DaySnoc(commits: seq<Commit>, c: Commit)
    ensures TallyOf(DayKeys(commits + [c])) == Bump(TallyOf(DayKeys(commits)), DayOf(c.authoredAt))
  {
    assert DayKeys(commits + [c]) == DayKeys(commits) + [DayOf(c.authoredAt)];
    TallySnoc(DayKeys(commits), DayOf(c.authoredAt));
  }

  lemma HourSnoc(commits: seq<Commit>, c: Commit, zone: Zone)
    ensures TallyOf(HourKeys(commits + [c], zone)) == Bump(TallyOf(HourKeys(commits, zone)), HourOf(Local(zone, c.authoredAt)))
  {
    assert HourKeys(commits + [c], zone) == HourKeys(commits, zone) + [HourOf(Local(zone, c.authoredAt))];
    TallySnoc(HourKeys(commits, zone), HourOf(Local(zone, c.authoredAt)));
  }

  lemma WeekdaySnoc(commits: seq<Commit>, c: Commit, zone: Zone)
    ensures var week, name := WeekOf(WeekdayKeys(commits, zone)), WeekdayOf(Local(zone, c.authoredAt));
            WeekOf(WeekdayKeys(commits + [c], zone)) == Increment(week, name)
  {
    assert WeekdayKeys(commits + [c], zone) == WeekdayKeys(commits, zone) + [WeekdayOf(Local(zone, c.authoredAt))];
    WeekdayName(Local(zone, c.authoredAt));
    WeekOfSnoc(WeekdayKeys(commits, zone), WeekdayOf(Local(zone, c.authoredAt)));
  }

  /** The heatmap of one more commit: its day, its hour and its day of the week each count one
      more. */
  lemma HeatmapSnoc(commits: seq<Commit>, c: Commit, zone: Zone, days: int)
    ensures var h := HeatmapOf(commits, zone, days);
            var t := c.authoredAt;
            HeatmapOf(commits + [c], zone, days)
              == Heatmap(Bump(h.activityByDay, DayOf(t)), Bump(h.activityByHour, HourOf(Local(zone, t))),
                         Increment(h.activityByDayOfWeek, WeekdayOf(Local(zone, t))),
                         |commits| + 1, days)
  {
    var h, h' := HeatmapOf(commits, zone, days), HeatmapOf(commits + [c], zone, days);
    DaySnoc(commits, c);
    HourSnoc(commits, c, zone);
    WeekdaySnoc(commits, c, zone);
    assert h.activityByDay == TallyOf(DayKeys(commits));
    assert h'.activityByDay == TallyOf(DayKeys(commits + [c]));
    assert h.activityByHour == TallyOf(HourKeys(commits, zone));
    assert h'.activityByHour == TallyOf(HourKeys(commits + [c], zone));
    assert h.activityByDayOfWeek == WeekOf(WeekdayKeys(commits, zone));
    assert h'.activityByDayOfWeek == WeekOf(WeekdayKeys(commits + [c], zone));
  }

  lemma HeatmapStep(commits: seq<Commit>, i: nat, zone: Zone, days: int)
    requires i < |commits|
    ensures var h := HeatmapOf(commits[..i], zone, days);
            var t := commits[i].authoredAt;
            HeatmapOf(commits[..i + 1], zone, days)
              == Heatmap(Bump(h.activityByDay, DayOf(t)), Bump(h.activityByHour, HourOf(Local(zone, t))),
                         Increment(h.activityByDayOfWeek, WeekdayOf(Local(zone, t))),
                         i + 1, days)
  {
    assert commits[..i + 1] == commits[..i] + [commits[i]];
    HeatmapSnoc(commits[..i], commits[i], zone, days);
  }

  /** The heatmap of `commits` adds up: each counter sums to the number of commits, the
      day-of-week counter has exactly the seven names and the hours are those of a day. */
  lemma HeatmapTotals(commits: seq<Commit>, zone: Zone, days: int)
    ensures var h := HeatmapOf(commits, zone, days);
            && h.totalCommits == |commits|
            && SumValues(h.activityByDay) == h.totalCommits
            && SumValues(h.activityByHour) == h.totalCommits
            && SumValues(h.activityByDayOfWeek) == h.totalCommits
            && h.activityByDayOfWeek.Keys == EmptyWeek.Keys
            && forall hour | hour in h.activityByHour :: 0 <= hour < 24
  {
    var hours, names := HourKeys(commits, zone), WeekdayKeys(commits, zone);
    SumValuesTally(DayKeys(commits));
    SumValuesTally(hours);
    assert forall hour | hour in hours :: 0 <= hour < 24 by {
      forall hour | hour in hours ensures 0 <= hour < 24 {
        var i :| 0 <= i < |hours| && hours[i] == hour;
        assert hour == HourOf(Local(zone, commits[i].authoredAt));
      }
    }
    assert forall n | n in names :: n in DayNames by {
      forall n | n in names ensures n in DayNames {
        var i :| 0 <= i < |names| && names[i] == n;
        WeekdayName(Local(zone, commits[i].authoredAt));
      }
    }
    WeekOfSum(names);
  }

  /** The `forEach` that increments the three counters once per commit. */
  method BuildHeatmap(commits: seq<Commit>, zone: Zone, days: int) returns (h: Heatmap)
    ensures h == HeatmapOf(commits, zone, days)
  {
    var activityByDay: map<int, nat> := map[];
    var activityByHour: map<int, nat> := map[];
    var activityByDayOfWeek := EmptyWeek;
    assert HeatmapOf([], zone, days) == Heatmap(activityByDay, activityByHour, activityByDayOfWeek, 0, days);
    var i := 0;
    while i < |commits|
      invariant 0 <= i <= |commits|
      invariant HeatmapOf(commits[..i], zone, days) == Heatmap(activityByDay, activityByHour, activityByDayOfWeek, i, days)
    {
      var date := commits[i].authoredAt;
      var dayKey := DayOf(date);
      var hour := HourOf(Local(zone, date));
      var dayOfWeek := WeekdayOf(Local(zone, date));
      HeatmapStep(commits, i, zone, days);
      activityByDay := Bump(activityByDay, dayKey);
      activityByHour := Bump(activityByHour, hour);
      activityByDayOfWeek := Increment(activityByDayOfWeek, dayOfWeek);
      i := i + 1;
    }
    assert commits[..i] == commits;
    h := Heatmap(activityByDay, activityByHour, activityByDayOfWeek, |commits|, days);
  }

  /** `getActivityHeatmap`: a failed fetch is re-thrown unchanged. */
  method GetActivityHeatmap(fetched: Result<seq<Commit>, FetchError>, zone: Zone, days: int)
    returns (r: Result<Heatmap, FetchError>)
    ensures fetched.Failure? ==> r == Failure(fetched.error)
    ensures fetched.Success? ==> r == Success(HeatmapOf(fetched.value, zone, days))
  {
    if fetched.Failure? {
      return Failure(fetched.error);
    }
    var heatmap := BuildHeatmap(fetched.value, zone, days);
    return Success(heatmap);
  }

  /** The day-of-week counter always has exactly the seven names Sunday to Saturday. */
  lemma WeekHasSevenDays(commits: seq<Commit>, zone: Zone, days: int)
    ensures HeatmapOf(commits, zone, days).activityByDayOfWeek.Keys == set name | name in DayNames
    ensures |HeatmapOf(commits, zone, days).activityByDayOfWeek| == 7
  {
    DayNamesDistinct();
    var week := HeatmapOf(commits, zone, days).activityByDayOfWeek;
    assert week.Keys == set name | name in DayNames;
    DistinctCardinality(DayNames);
  }

  lemma DayNamesDistinct()
    ensures Distinct(DayNames)
  {
  }

  /** Each counter counts exactly the commits of its key: a day or an hour is present iff some
      commit falls in it, and each day of the week holds the number of commits on it. */
  lemma HeatmapCounts(commits: seq<Commit>, zone: Zone, days: int, t: int)
    ensures var h := HeatmapOf(commits, zone, days);
            && (HourOf(Local(zone, t)) in h.activityByHour <==> HourOf(Local(zone, t)) in HourKeys(commits, zone))
            && (DayOf(t) in h.activityByDay <==> DayOf(t) in DayKeys(commits))
            && h.activityByDayOfWeek[WeekdayOf(Local(zone, t))] == Count(WeekdayKeys(commits, zone), WeekdayOf(Local(zone, t)))
  {
  }

  lemma SameHourKeys(c1: Commit, c2: Commit, zone: Zone)
    requires c1.authoredAt == 1705312800000 && c2.authoredAt == 1705314600000
    requires zone(c1.authoredAt) == 0 && zone(c2.authoredAt) == 0
    ensures HourKeys([c1, c2], zone) == [10, 10]
    ensures DayKeys([c1, c2]) == [19737, 19737]
    ensures WeekdayKeys([c1, c2], zone) == ["Monday", "Monday"]
  {
    assert HourOf(1705312800000) == 10 && HourOf(1705314600000) == 10;
    assert DayOf(1705312800000) == 19737 && DayOf(1705314600000) == 19737;
  }

  lemma TallyTwice(x: int)
    ensures TallyOf([x, x]) == map[x := 2]
  {
    assert [x, x][..1] == [x] && [x][..0] == [];
  }

  /** On a host whose clock is on UTC, 2024-01-15T10:00Z and 2024-01-15T10:30Z are both in hour
      10 of the same day, a Monday. */
  lemma SameHourExample(zone: Zone)
    requires zone(1705312800000) == 0 && zone(1705314600000) == 0
    ensures var c1 := Commit(None, None, 1705312800000);
            var c2 := Commit(None, None, 1705314600000);
            var h := HeatmapOf([c1, c2], zone, 30);
            && h.activityByHour == map[10 := 2]
            && h.activityByDay == map[19737 := 2]
            && h.activityByDayOfWeek["Monday"] == 2
            && h.totalCommits == 2
  {
    var c1 := Commit(None, None, 1705312800000);
    var c2 := Commit(None, None, 1705314600000);
    SameHourKeys(c1, c2, zone);
    TallyTwice(10);
    TallyTwice(19737);
    assert Count(["Monday", "Monday"], "Monday") == 2 by {
      assert ["Monday", "Monday"][..1] == ["Monday"] && ["Monday"][..0] == [];
    }
  }

  lemma LocalHourKeys(c: Commit, zone: Zone)
    requires c.authoredAt == 1705361400000 && zone(1705361400000) == 2 * MsPerHour
    ensures DayKeys([c]) == [19737]
    ensures HourKeys([c], zone) == [1]
    ensures WeekdayKeys([c], zone) == ["Tuesday"]
  {
    assert Local(zone, c.authoredAt) == 1705368600000;
    assert DayOf(1705361400000) == 19737 && DayOf(1705368600000) == 19738;
    assert HourOf(1705368600000) == 1;
    assert WeekdayOf(1705368600000) == "Tuesday";
  }

  lemma TallyOnce(x: int)
    ensures TallyOf([x]) == map[x := 1]
  {
    assert [x][..0] == [];
  }

  /** On a host two hours ahead of UTC, a commit at 2024-01-15T23:30Z is counted on the UTC day
      of 2024-01-15 (a Monday) but in local hour 1 of a Tuesday. */
  lemma LocalHourExample(zone: Zone)
    requires zone(1705361400000) == 2 * MsPerHour
    ensures var h := HeatmapOf([Commit(None, None, 1705361400000)], zone, 30);
            && h.activityByDay == map[19737 := 1]
            && h.activityByHour == map[1 := 1]
            && h.activityByDayOfWeek["Tuesday"] == 1
            && h.activityByDayOfWeek["Monday"] == 0
  {
    var c := Commit(None, None, 1705361400000);
    LocalHourKeys(c, zone);
    TallyOnce(19737);
    TallyOnce(1);
    assert Count(["Tuesday"], "Tuesday") == 1 && Count(["Tuesday"], "Monday") == 0 by {
      assert ["Tuesday"][..0] == [];
      assert "Monday" != "Tuesday" by { assert "Monday"[0] != "Tuesday"[0]; }
    }
  }

}
