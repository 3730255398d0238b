/** The home page: the security snapshot of the signed-in user and the GitHub
    activity panel (the eight-day push histogram, its total and the three most
    recently pushed repositories). */
module HomePage {
  import opened Wrappers
  import opened Text
  import opened Time
  import opened Sorting
  import opened GithubLib
  import opened DashboardPage

  const Dash := "—"

  /** What the page reads of the current user. `twoFactor` is `None` when the
      field is not a boolean; `lastSignIn` is `None` when it is `null`. */
  datatype User = User(email: Option<string>, twoFactor: Option<bool>, lastSignIn: Option<Instant>)

  datatype Snapshot = Snapshot(email: string, twoFA: string, lastSignIn: string, session: string)

  /** The four labels of the security snapshot, for a possibly missing user and
      session id. */
  function SecuritySnapshot(user: Option<User>, sessionId: Option<string>): (r: Snapshot)
    ensures r.email == (if user.Some? && user.value.email.Some? then user.value.email.value else Dash)
    ensures r.twoFA == "Enabled" <==> user.Some? && user.value.twoFactor == Some(true)
    ensures r.twoFA == "Disabled" <==> user.Some? && user.value.twoFactor == Some(false)
    ensures r.twoFA == Dash <==> user.None? || user.value.twoFactor.None?
    ensures r.session == "Active" <==> sessionId.Some? && sessionId.value != []
    ensures r.session != "Active" ==> r.session == Dash
    ensures r.lastSignIn == Dash <==>
      user.None? || user.value.lastSignIn.None? || user.value.lastSignIn.value.ms == 0
    ensures r.lastSignIn != Dash ==> r.lastSignIn == FormatParts(user.value.lastSignIn.value.local)
  {
    var email := if user.Some? then user.value.email.GetOr(Dash) else Dash;
    var twoFA :=
      if user.Some? && user.value.twoFactor.Some? then
        (if user.value.twoFactor.value then "Enabled" else "Disabled")
      else Dash;
    var last :=
      if user.Some? && user.value.lastSignIn.Some? && user.value.lastSignIn.value.ms != 0 then
        FormatPartsIsNotDash(user.value.lastSignIn.value.local);
        FormatDate(Some(user.value.lastSignIn.value.local))
      else Dash;
    var session := if sessionId.Some? && sessionId.value != [] then "Active" else Dash;
    Snapshot(email, twoFA, last, session)
  }

  /** The events and repositories the panel works with: both fetches run
      together, so if either rejects both lists are empty; otherwise a response
      that is not OK or whose body does not parse gives an empty list. */
  function HomeLists(events: Reply<seq<GhEvent>>, repos: Reply<seq<GhRepo>>): (r: (seq<GhEvent>, seq<GhRepo>))
    ensures events.Rejected? || repos.Rejected? ==> r == ([], [])
    ensures !events.Rejected? && !repos.Rejected? ==>
      && r.0 == (if events.Json? then events.body else [])
      && r.1 == (if repos.Json? then repos.body else [])
  {
    if events.Rejected? || repos.Rejected? then ([], [])
    else
      (if events.Json? then events.body else [], if repos.Json? then repos.body else [])
  }

  /** `new Date(pushed_at).getTime()`, which only orders consistently when it is
      a number for every repository. */
  predicate PushTimed(repos: seq<GhRepo>) {
    forall i :: 0 <= i < |repos| ==> GetTime(repos[i].pushedAt).Some?
  }

  /** `bTime - aTime` on push times as an ascending key: latest push first. */
  function LatestPush(r: GhRepo): int {
    -GetTime(r.pushedAt).GetOr(0)
  }

  /** `[...repos].sort(...).slice(0, 3)`: a sorted copy, cut to three. */
  function Top3(repos: seq<GhRepo>): (r: seq<GhRepo>)
    ensures |r| == Min(3, |repos|)
    ensures forall i :: 0 <= i < |r| ==> r[i] in repos
    ensures forall i, j :: 0 <= i < j < |r| ==> LatestPush(r[i]) <= LatestPush(r[j])
  {
    var s := SortBy(repos, LatestPush);
    assert forall i :: 0 <= i < |s| ==> s[i] in multiset(repos);
    s[..Min(3, |repos|)]
  }

  /** Among push-timed repositories the three are pushed latest first, and any
      repository left out was pushed no later than each of them. */
  lemma Top3AreLatest(repos: seq<GhRepo>)
    requires PushTimed(repos)
    ensures var r := Top3(repos);
      && (forall i, j :: 0 <= i < j < |r| ==> GetTime(r[i].pushedAt).value >= GetTime(r[j].pushedAt).value)
      && forall k :: 0 <= k < |repos| ==>
           repos[k] in r || forall i :: 0 <= i < |r| ==> GetTime(repos[k].pushedAt).value <= GetTime(r[i].pushedAt).value
  {
    var r := Top3(repos);
    assert forall i :: 0 <= i < |r| ==> GetTime(r[i].pushedAt).Some?;
    SortedPrefixIsTop(repos, LatestPush, Min(3, |repos|));
  }

  /** The numbers of the activity panel. */
  datatype Panel = Panel(spark: seq<nat>, totalPush: nat, top3: seq<GhRepo>)

  /** `GithubActivity()`: the histogram of the events, `spark.reduce(+)`, and the
      three latest-pushed repositories; the fetched list itself is not reordered. */
  method GithubActivity(events: Reply<seq<GhEvent>>, repos: Reply<seq<GhRepo>>, now: Instant)
    returns (p: Panel)
    ensures var lists := HomeLists(events, repos);
      && p.spark == Histogram(lists.0, now.local)
      && p.totalPush == InWindow(lists.0, now.local) && p.totalPush <= |lists.0|
      && p.top3 == Top3(lists.1)
  {
    var lists := HomeLists(events, repos);
    var spark := Build8DaySparkline(lists.0, now);
    HistogramSum(lists.0, now.local);
    p := Panel(spark, Sum(spark), Top3(lists.1));
  }
}
