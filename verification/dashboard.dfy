/**
 The data behind the dashboard (`frontend/src/pages/Dashboard.jsx`): the stats
 the page holds after fetching `/jobs/stats`, the four summary cards and the
 five bars of the status chart. A status missing from `byStatus` shows as 0
 (`byStatus.<status> || 0`). `Render` models only which screen is shown once
 the fetch has settled; the loading screen and its timeout, the markup, the
 bar colours and the drawing of the charts are not modelled.
 */
module Dashboard {
  import opened Http
  import opened JobSchema
  import JobController
  import Tally

  /** The status keys of the chart bars, in display order. */
  const ChartKeys: seq<string> := ["applied", "interview", "offer", "rejected", "saved"]

  const ChartLabels: seq<string> := ["Applied", "Interview", "Offer", "Rejected", "Saved"]

  const FetchFailed: string := "Failed to fetch dashboard data. Please try again later."

  /** The stats the page starts with, and falls back to when the fetch fails. */
  const EmptyStats: JobController.JobStats := JobController.JobStats(0, map[])

  /** `byStatus.<key> || 0`: the count under `key`, or 0 when there is none. */
  function CountOf(byStatus: map<string, nat>, key: string): (n: nat)
    ensures key in byStatus ==> n == byStatus[key]
    ensures key !in byStatus ==> n == 0
  {
    if key in byStatus then byStatus[key] else 0
  }

  datatype StatCard = StatCard(title: string, count: nat)

  /** `statsData`: the total, then the interview, offer and rejection counts. */
  function StatCards(stats: JobController.JobStats): (r: seq<StatCard>)
    ensures |r| == 4
    ensures r[0] == StatCard("Total Applications", stats.total)
    ensures r[1].count == CountOf(stats.byStatus, "interview")
    ensures r[2].count == CountOf(stats.byStatus, "offer")
    ensures r[3].count == CountOf(stats.byStatus, "rejected")
  {
    [ StatCard("Total Applications", stats.total),
      StatCard("Interviews Scheduled", CountOf(stats.byStatus, "interview")),
      StatCard("Offers Received", CountOf(stats.byStatus, "offer")),
      StatCard("Rejections", CountOf(stats.byStatus, "rejected")) ]
  }

  /** The chart's data set: one bar per label, bar `i` counting the status of
      label `i`. */
  function ChartData(stats: JobController.JobStats): (r: seq<nat>)
    ensures |r| == |ChartLabels| == |ChartKeys|
    ensures forall i :: 0 <= i < |r| ==> r[i] == CountOf(stats.byStatus, ChartKeys[i])
  {
    [ CountOf(stats.byStatus, "applied"),
      CountOf(stats.byStatus, "interview"),
      CountOf(stats.byStatus, "offer"),
      CountOf(stats.byStatus, "rejected"),
      CountOf(stats.byStatus, "saved") ]
  }

  /** The chart has a bar for each status of the schema's enumeration, in its
      order, and no other. */
  lemma ChartCoversTheEnumeration()
    ensures ChartKeys == Statuses
    ensures forall k :: k in ChartKeys <==> IsKnownStatus(k)
  {
  }

  /** The page's state once the fetch has settled: the stats shown and the
      error message, if any. */
  datatype View = View(stats: JobController.JobStats, error: Option<string>)

  /** `fetchStats`: a successful reply's body becomes the stats; a failed
      request leaves the zero stats and an error message. */
  function AfterFetch(reply: Reply<JobController.JobStats>): (v: View)
    ensures reply.Ok? ==> v == View(reply.value, None)
    ensures reply.Error? ==> v.stats.total == 0 && v.stats.byStatus == map[] && v.error == Some(FetchFailed)
  {
    match reply
    case Ok(_, stats) => View(stats, None)
    case Error(_, _) => View(EmptyStats, Some(FetchFailed))
  }

  /** After a failed fetch the card and chart data are all 0, and the page
      renders the error message alone, with no card and no chart. */
  lemma FailureShowsZeros(reply: Reply<JobController.JobStats>)
    requires reply.Error?
    ensures forall c :: c in StatCards(AfterFetch(reply).stats) ==> c.count == 0
    ensures forall n :: n in ChartData(AfterFetch(reply).stats) ==> n == 0
    ensures Render(AfterFetch(reply)) == ErrorMessage(FetchFailed)
  {
  }

  /** Sum of a sequence of counts. */
  function Sum(xs: seq<nat>): nat
  {
    if xs == [] then 0 else xs[0] + Sum(xs[1..])
  }

  /** The sum of five counts, written out. */
  lemma {:induction false} SumOfFive(c: seq<nat>)
    requires |c| == 5
    ensures Sum(c) == c[0] + c[1] + c[2] + c[3] + c[4]
  {
    assert Sum(c[4..]) == c[4] by { assert c[4..][1..] == []; }
    assert Sum(c[3..]) == c[3] + Sum(c[4..]) by { assert c[3..][1..] == c[4..]; }
    assert Sum(c[2..]) == c[2] + Sum(c[3..]) by { assert c[2..][1..] == c[3..]; }
    assert Sum(c[1..]) == c[1] + Sum(c[2..]) by { assert c[1..][1..] == c[2..]; }
  }

  /** Taking one key that `peeled` leaves alone out of the keys of `m` that
      remain. */
  lemma PeelOne(m: map<string, nat>, keys: set<string>, peeled: set<string>, key: string)
    requires keys == m.Keys - peeled && key !in peeled
    ensures Tally.SumOver(m, keys) == CountOf(m, key) + Tally.SumOver(m, m.Keys - (peeled + {key}))
  {
    Tally.SumOverPeel(m, keys, key);
    assert keys - {key} == m.Keys - (peeled + {key});
  }

  /** The counts of `byStatus` split into the five bars and the counts under
      keys outside the enumeration, which no bar shows. */
  lemma ChartSplitsTheCounts(stats: JobController.JobStats)
    ensures var m := stats.byStatus;
            Tally.MapSum(m) == Sum(ChartData(stats)) + Tally.SumOver(m, m.Keys - set k | k in ChartKeys)
  {
    var m := stats.byStatus;
    var c := ChartData(stats);
    var p1: set<string> := {"applied"};
    var p2 := p1 + {"interview"};
    var p3 := p2 + {"offer"};
    var p4 := p3 + {"rejected"};
    var p5 := p4 + {"saved"};
    assert m.Keys == m.Keys - {};
    PeelOne(m, m.Keys, {}, "applied");
    assert {} + {"applied"} == p1;
    PeelOne(m, m.Keys - p1, p1, "interview");
    PeelOne(m, m.Keys - p2, p2, "offer");
    PeelOne(m, m.Keys - p3, p3, "rejected");
    PeelOne(m, m.Keys - p4, p4, "saved");
    SumOfFive(c);
    assert p5 == set k | k in ChartKeys;
  }

  /** No status key means no job of the caller has that status, except for
      `__proto__`, whose key a plain object never holds. */
  lemma AbsentStatusCountsZero(s: JobController.Store, u: UserId, k: string)
    requires k !in JobController.GetJobStats(s, u).value.byStatus
    ensures k == JobController.ProtoKey || JobController.CountStatus(JobController.OwnedBy(s, u), k) == 0
  {
    if k != JobController.ProtoKey {
      JobController.NoJobNoCount(s, u, k);
    }
  }

  /** What the dashboard shows after fetching the caller's stats: the total is
      the number of the caller's jobs and each bar the number of the caller's
      jobs with that status, zero included. */
  lemma DashboardShowsTheCallersCounts(s: JobController.Store, u: UserId)
    ensures var v := AfterFetch(JobController.GetJobStats(s, u));
            && v.error.None?
            && StatCards(v.stats)[0].count == |JobController.OwnedBy(s, u)|
            && forall i :: 0 <= i < 5 ==>
                 ChartData(v.stats)[i] == JobController.CountStatus(JobController.OwnedBy(s, u), ChartKeys[i])
  {
    var stats := JobController.GetJobStats(s, u).value;
    forall i | 0 <= i < 5
      ensures ChartData(stats)[i] == JobController.CountStatus(JobController.OwnedBy(s, u), ChartKeys[i])
    {
      if ChartKeys[i] !in stats.byStatus {
        AbsentStatusCountsZero(s, u, ChartKeys[i]);
      }
    }
  }

  /** When every job of the caller has a status of the enumeration, no key of
      its stats lies outside the chart. */
  lemma NoKeyOutsideTheChart(s: JobController.Store, u: UserId)
    requires forall j :: j in s && j.owner == u ==> IsKnownStatus(j.status)
    ensures var m := JobController.GetJobStats(s, u).value.byStatus;
            m.Keys - (set k | k in ChartKeys) == {}
  {
    var m := JobController.GetJobStats(s, u).value.byStatus;
    forall k | k in m ensures k in ChartKeys {
      var j :| j in s && j.owner == u && j.status == k;
      ChartCoversTheEnumeration();
    }
  }

  /** When every job of the caller has a status of the enumeration, none has
      status `__proto__`, so the counts add up to the total. */
  lemma KnownStatusesAddUp(s: JobController.Store, u: UserId)
    requires forall j :: j in s && j.owner == u ==> IsKnownStatus(j.status)
    ensures Tally.MapSum(JobController.GetJobStats(s, u).value.byStatus) == JobController.GetJobStats(s, u).value.total
  {
    forall j | j in s && j.owner == u ensures j.status != JobController.ProtoKey {
      assert j.status in Statuses;
    }
    JobController.StatsAddUpWithoutProto(s, u);
  }

  /** When every job of the caller has a status of the enumeration, the bars
      add up to the "Total Applications" card. */
  lemma ChartAddsUpToTotal(s: JobController.Store, u: UserId)
    requires forall j :: j in s && j.owner == u ==> IsKnownStatus(j.status)
    ensures var stats := JobController.GetJobStats(s, u).value;
            Sum(ChartData(stats)) == StatCards(stats)[0].count
  {
    var stats := JobController.GetJobStats(s, u).value;
    KnownStatusesAddUp(s, u);
    NoKeyOutsideTheChart(s, u);
    ChartSplitsTheCounts(stats);
  }

  /** A job whose status lies outside the enumeration, which an update can
      store, is counted in the total but in no bar: the bars then add up to
      less than the total. */
  lemma UnknownStatusMissesTheChart(s: JobController.Store, u: UserId, j: Job)
    requires j in s && j.owner == u && !IsKnownStatus(j.status)
    ensures var stats := JobController.GetJobStats(s, u).value;
            Sum(ChartData(stats)) < StatCards(stats)[0].count
  {
    var stats := JobController.GetJobStats(s, u).value;
    var m := stats.byStatus;
    var rest := m.Keys - set k | k in ChartKeys;
    ChartSplitsTheCounts(stats);
    if j.status == JobController.ProtoKey {
      JobController.ProtoStatusIsDropped(s, u, j);
    } else {
      assert j.status in m;
      assert j.status !in ChartKeys;
      assert j.status in rest;
      Tally.SumOverRemove(m, rest, j.status);
    }
  }

  /** What the page renders once loading is over: the error message alone
      when there is one, the cards and the chart otherwise. */
  datatype Screen = ErrorMessage(text: string) | Overview(cards: seq<StatCard>, bars: seq<nat>)

  function Render(v: View): (sc: Screen)
    ensures sc.ErrorMessage? <==> v.error.Some?
    ensures sc.ErrorMessage? ==> sc.text == v.error.value
    ensures sc.Overview? ==> |sc.cards| == 4 && |sc.bars| == |ChartKeys|
                             && sc.cards[0].count == v.stats.total
                             && forall i :: 0 <= i < |sc.bars| ==> sc.bars[i] == CountOf(v.stats.byStatus, ChartKeys[i])
  {
    match v.error
    case Some(msg) => ErrorMessage(msg)
    case None => Overview(StatCards(v.stats), ChartData(v.stats))
  }

  /** A successful fetch renders the caller's total and per-status counts. */
  lemma SuccessRendersTheStats(s: JobController.Store, u: UserId)
    ensures var sc := Render(AfterFetch(JobController.GetJobStats(s, u)));
            && sc.Overview?
            && sc.cards[0].count == |JobController.OwnedBy(s, u)|
            && forall i :: 0 <= i < |sc.bars| ==>
                 sc.bars[i] == JobController.CountStatus(JobController.OwnedBy(s, u), ChartKeys[i])
  {
    DashboardShowsTheCallersCounts(s, u);
  }
}
