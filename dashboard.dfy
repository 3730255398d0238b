/** The data side of the dashboard page: the GitHub summary (project count, push
    count, the three most recently pushed repositories and the activity feed) and
    the learning statistics drawn from the course and study-log collections. */
module DashboardPage {
  import opened Wrappers
  import opened Text
  import opened Sorting
  import opened Time
  import opened GithubLib
  import opened Models
  import opened Seqs

  const GithubUser := "bora120"
  const DescriptionLimit := 140
  const SummaryId := "github-push-summary"
  const SummaryDescription := "GitHub 공개 이벤트 기준으로 계산된 최근 8일간 Push 활동입니다."

  /** `truncateText(text, maxLength)`: short texts are kept; a longer one is cut
      to `maxLength` characters, stripped of trailing white space and ended with
      an ellipsis. */
  function TruncateText(text: string, maxLength: nat): (r: string)
    ensures text == [] ==> r == []
    ensures 0 < |text| <= maxLength ==> r == text
    ensures |text| > maxLength ==>
      exists p :: r == p + "…" && p == TrimEnd(text[..maxLength])
    ensures |text| > maxLength ==> |r| <= maxLength + 1 && r[|r| - 1] == '…'
  {
    if text == [] then []
    else if |text| <= maxLength then text
    else TrimEnd(text[..maxLength]) + "…"
  }

  /** The kept part of a truncated text is a prefix of it without trailing white
      space, and what was dropped from the first `maxLength` characters is white
      space. */
  lemma TruncatedPrefix(text: string, maxLength: nat)
    requires |text| > maxLength
    ensures var p := TruncateText(text, maxLength)[..|TruncateText(text, maxLength)| - 1];
      && |p| <= maxLength && p == text[..|p|]
      && AllSpace(text[|p|..maxLength])
      && (p == [] || !IsSpace(p[|p| - 1]))
  {
    var cut := text[..maxLength];
    var p := TrimEnd(cut);
    TrimEndSpec(cut);
    assert TruncateText(text, maxLength) == p + "…";
    assert (p + "…")[..|p + "…"| - 1] == p;
    assert cut[..|p|] == text[..|p|];
    assert cut[|p|..] == text[|p|..maxLength];
  }

  /** A repository of the dashboard's "recent repositories" card. */
  datatype SimpleRepo = SimpleRepo(id: string, name: string, description: string, url: string, updatedAt: Instant)

  datatype ActivityKind = Learning | Github

  /** An entry of an activity feed, dated by `D`. */
  datatype ActivityItem<D> = ActivityItem(
    id: string, kind: ActivityKind, title: string, description: Option<string>, date: D, link: Option<string>)

  datatype GithubData = GithubData(
    projectsCount: nat,
    recentCommitCount: nat,
    activities: seq<ActivityItem<Instant>>,
    recentRepos: seq<SimpleRepo>)

  const NoGithubData := GithubData(0, 0, [], [])

  /** What a `fetch` of a JSON list came back with. */
  datatype Reply<T> =
    | Rejected            // the promise rejected: network failure
    | NotOk(status: nat)  // a response with `ok` false
    | BadJson             // `ok`, but `res.json()` threw
    | Json(body: T)

  /** The ranking time of a repository: `new Date(pushed_at || updated_at || '')`,
      so `updated_at` only counts when `pushed_at` is falsy, and the larger of the
      two is not taken. */
  function RankTime(r: GhRepo): (t: Option<int>)
    ensures Truthy(r.pushedAt) ==> t == GetTime(r.pushedAt)
    ensures !Truthy(r.pushedAt) && Truthy(r.updatedAt) ==> t == GetTime(r.updatedAt)
    ensures !Truthy(r.pushedAt) && !Truthy(r.updatedAt) ==> t.None?
  {
    GetTime(Or(r.pushedAt, Or(r.updatedAt, Empty)))
  }

  /** The comparator `bTime - aTime` only orders consistently when every
      repository has a ranking time. */
  predicate Ranked(repos: seq<GhRepo>) {
    forall i :: 0 <= i < |repos| ==> RankTime(repos[i]).Some?
  }

  /** `bTime - aTime` as an ascending key: newest first. */
  function NewestFirst(r: GhRepo): int {
    -RankTime(r).GetOr(0)
  }

  /** The card fields of a repository; its date is `safeDate(pushed_at ||
      updated_at || created_at)`. */
  function Project(r: GhRepo, now: Instant): (p: SimpleRepo)
    ensures p.id == NatToString(r.id) && p.name == r.name && p.url == r.htmlUrl
    ensures p.description == r.description.GetOr("")
    ensures p.updatedAt == SafeDate(Or(r.pushedAt, Or(r.updatedAt, r.createdAt)), now)
  {
    SimpleRepo(NatToString(r.id), r.name, r.description.GetOr(""), r.htmlUrl,
      SafeDate(Or(r.pushedAt, Or(r.updatedAt, r.createdAt)), now))
  }

  /** For a ranked repository, the card's date is the ranking time itself. */
  lemma ProjectDateIsRankTime(r: GhRepo, now: Instant)
    requires RankTime(r).Some?
    ensures Project(r, now).updatedAt.ms == RankTime(r).value
  {
  }

  function Min(a: int, b: int): int {
    if a <= b then a else b
  }

  /** `recentRepos`: a sorted copy of the repositories, the first three, projected. */
  function RecentRepos(repos: seq<GhRepo>, now: Instant): (r: seq<SimpleRepo>)
    ensures |r| == Min(3, |repos|)
  {
    var s := SortBy(repos, NewestFirst);
    seq(Min(3, |repos|), i requires 0 <= i < Min(3, |repos|) => Project(s[i], now))
  }

  /** The `i`-th recent repository is the projection of the `i`-th sorted one, a
      fetched repository whose ranking time is the card's date. */
  lemma RecentRepoAt(repos: seq<GhRepo>, now: Instant, i: nat)
    requires Ranked(repos) && i < Min(3, |repos|)
    ensures var s := SortBy(repos, NewestFirst);
      && RecentRepos(repos, now)[i] == Project(s[i], now)
      && s[i] in repos
      && RecentRepos(repos, now)[i].updatedAt.ms == -NewestFirst(s[i])
  {
    var s := SortBy(repos, NewestFirst);
    assert s[i] in multiset(repos);
    var k :| 0 <= k < |repos| && repos[k] == s[i];
    ProjectDateIsRankTime(s[i], now);
  }

  /** Every recent repository is the projection of a fetched one. */
  lemma RecentReposArePicked(repos: seq<GhRepo>, now: Instant)
    requires Ranked(repos)
    ensures var r := RecentRepos(repos, now);
      forall i :: 0 <= i < |r| ==> exists k :: 0 <= k < |repos| && r[i] == Project(repos[k], now)
  {
    var s := SortBy(repos, NewestFirst);
    var r := RecentRepos(repos, now);
    forall i | 0 <= i < |r|
      ensures exists k :: 0 <= k < |repos| && r[i] == Project(repos[k], now)
    {
      RecentRepoAt(repos, now, i);
      var k :| 0 <= k < |repos| && repos[k] == s[i];
      assert r[i] == Project(repos[k], now);
    }
  }

  /** The recent repositories are ordered newest first. */
  lemma RecentReposNewestFirst(repos: seq<GhRepo>, now: Instant)
    requires Ranked(repos)
    ensures var r := RecentRepos(repos, now);
      forall i, j :: 0 <= i < j < |r| ==> r[i].updatedAt.ms >= r[j].updatedAt.ms
  {
    var s := SortBy(repos, NewestFirst);
    forall i, j | 0 <= i < j < |RecentRepos(repos, now)|
      ensures RecentRepos(repos, now)[i].updatedAt.ms >= RecentRepos(repos, now)[j].updatedAt.ms
    {
      RecentRepoAt(repos, now, i);
      RecentRepoAt(repos, now, j);
      assert NewestFirst(s[i]) <= NewestFirst(s[j]);
    }
  }

  /** Every fetched repository that was not picked is no newer than any picked one. */
  lemma RecentReposAreNewest(repos: seq<GhRepo>, now: Instant)
    requires Ranked(repos)
    ensures var r := RecentRepos(repos, now);
      forall k :: 0 <= k < |repos| ==>
        Project(repos[k], now) in r
        || forall i :: 0 <= i < |r| ==> RankTime(repos[k]).value <= r[i].updatedAt.ms
  {
    var s := SortBy(repos, NewestFirst);
    var n := Min(3, |repos|);
    var r := RecentRepos(repos, now);
    SortedPrefixIsTop(repos, NewestFirst, n);
    forall k | 0 <= k < |repos|
      ensures Project(repos[k], now) in r
        || forall i :: 0 <= i < |r| ==> RankTime(repos[k]).value <= r[i].updatedAt.ms
    {
      if repos[k] in s[..n] {
        var j :| 0 <= j < n && s[..n][j] == repos[k];
        RecentRepoAt(repos, now, j);
        assert r[j] == Project(repos[k], now);
      } else {
        forall i | 0 <= i < |r| ensures RankTime(repos[k]).value <= r[i].updatedAt.ms {
          RecentRepoAt(repos, now, i);
        }
      }
    }
  }

  /** The feed entry of one recent repository. */
  function RepoActivity(repo: SimpleRepo): (a: ActivityItem<Instant>)
    ensures a.id == "repo-" + repo.id && a.kind == Github && a.title == repo.name
    ensures a.description == Some(TruncateText(repo.description, DescriptionLimit))
    ensures a.date == repo.updatedAt && a.link == Some(repo.url)
  {
    ActivityItem("repo-" + repo.id, Github, repo.name,
      Some(TruncateText(repo.description, DescriptionLimit)), repo.updatedAt, Some(repo.url))
  }

  /** The push-summary entry, dated by the first event of the feed whatever its
      type (`events[0]?.created_at ?? new Date()`), or `now` without one. */
  function SummaryActivity(total: nat, events: seq<GhEvent>, now: Instant): (a: ActivityItem<Instant>)
    ensures a.id == SummaryId && a.kind == Github
    ensures a.title == "최근 8일 동안 " + NatToString(total) + "회 Push"
    ensures events == [] ==> a.date == now
    ensures events != [] ==> a.date == SafeDate(events[0].createdAt, now)
    ensures a.link == Some("https://github.com/" + GithubUser)
  {
    var first := if events == [] then Absent else events[0].createdAt;
    ActivityItem(SummaryId, Github, "최근 8일 동안 " + NatToString(total) + "회 Push",
      Some(SummaryDescription), SafeDate(first, now), Some("https://github.com/" + GithubUser))
  }

  /** One entry per recent repository, in the same order. */
  function RepoActivities(recent: seq<SimpleRepo>): (acts: seq<ActivityItem<Instant>>)
    ensures |acts| == |recent|
    ensures forall i :: 0 <= i < |recent| ==> acts[i] == RepoActivity(recent[i])
  {
    seq(|recent|, i requires 0 <= i < |recent| => RepoActivity(recent[i]))
  }

  lemma RepoActivitiesAppend(recent: seq<SimpleRepo>, i: nat)
    requires i < |recent|
    ensures RepoActivities(recent[..i + 1]) == RepoActivities(recent[..i]) + [RepoActivity(recent[i])]
  {
    var a, b := RepoActivities(recent[..i + 1]), RepoActivities(recent[..i]) + [RepoActivity(recent[i])];
    assert |a| == |b|;
    forall k | 0 <= k < |a| ensures a[k] == b[k] {
      assert recent[..i + 1][k] == recent[k];
    }
  }

  /** The push-summary entry when there were pushes, nothing otherwise. */
  function SummaryPart(total: nat, events: seq<GhEvent>, now: Instant): (acts: seq<ActivityItem<Instant>>)
    ensures |acts| == (if total > 0 then 1 else 0)
    ensures total > 0 ==> acts[0] == SummaryActivity(total, events, now)
  {
    if total > 0 then [SummaryActivity(total, events, now)] else []
  }

  /** The GitHub activity feed: the summary when there were pushes, then one entry
      per recent repository in the same order. */
  function GithubActivities(total: nat, events: seq<GhEvent>, recent: seq<SimpleRepo>, now: Instant)
    : (acts: seq<ActivityItem<Instant>>)
  {
    SummaryPart(total, events, now) + RepoActivities(recent)
  }

  /** The shape of the feed: its length, the summary in front exactly when there
      were pushes, then the repository entries. */
  lemma GithubActivitiesShape(total: nat, events: seq<GhEvent>, recent: seq<SimpleRepo>, now: Instant)
    ensures var acts, off := GithubActivities(total, events, recent, now), if total > 0 then 1 else 0;
      && |acts| == off + |recent|
      && (total > 0 ==> acts[0] == SummaryActivity(total, events, now))
      && (forall i :: 0 <= i < |recent| ==> acts[off + i] == RepoActivity(recent[i]))
  {
    var head, tail := SummaryPart(total, events, now), RepoActivities(recent);
    var acts := head + tail;
    assert acts == GithubActivities(total, events, recent, now);
    AppendIndex(head, tail);
    forall i | 0 <= i < |recent| ensures acts[|head| + i] == RepoActivity(recent[i]) {
      assert acts[|head| + i] == tail[i];
    }
    if total > 0 {
      assert acts[0] == head[0];
    }
  }

  /** The feed opens with the summary exactly when there were pushes: no repository
      entry can carry the summary's id. */
  lemma SummaryFirstIff(total: nat, events: seq<GhEvent>, recent: seq<SimpleRepo>, now: Instant)
    ensures var acts := GithubActivities(total, events, recent, now);
      (acts != [] && acts[0].id == SummaryId) <==> total > 0
  {
    GithubActivitiesShape(total, events, recent, now);
    var acts := GithubActivities(total, events, recent, now);
    if total == 0 && acts != [] {
      assert acts[0] == RepoActivity(recent[0]);
      assert acts[0].id[0] == 'r';
      assert SummaryId[0] == 'g';
    }
  }

  /** Distinct repository ids give distinct feed ids. */
  lemma ActivityIdsDistinct(total: nat, events: seq<GhEvent>, recent: seq<SimpleRepo>, now: Instant)
    requires forall i, j :: 0 <= i < j < |recent| ==> recent[i].id != recent[j].id
    ensures var acts := GithubActivities(total, events, recent, now);
      forall i, j :: 0 <= i < j < |acts| ==> acts[i].id != acts[j].id
  {
    var head, tail := SummaryPart(total, events, now), RepoActivities(recent);
    assert head != [] ==> head[0].id == SummaryId;
    DistinctFeedIds(head, tail, recent);
  }

  lemma DistinctFeedIds(head: seq<ActivityItem<Instant>>, tail: seq<ActivityItem<Instant>>, recent: seq<SimpleRepo>)
    requires |head| <= 1 && (head != [] ==> head[0].id == SummaryId)
    requires |tail| == |recent| && forall k :: 0 <= k < |recent| ==> tail[k] == RepoActivity(recent[k])
    requires forall a, b :: 0 <= a < b < |recent| ==> recent[a].id != recent[b].id
    ensures forall i, j :: 0 <= i < j < |head + tail| ==> (head + tail)[i].id != (head + tail)[j].id
  {
    forall i, j | 0 <= i < j < |head + tail| ensures (head + tail)[i].id != (head + tail)[j].id {
      RepoIdDiffers(head, tail, recent, i, j);
    }
  }

  lemma RepoIdDiffers(head: seq<ActivityItem<Instant>>, tail: seq<ActivityItem<Instant>>, recent: seq<SimpleRepo>,
                      i: nat, j: nat)
    requires |head| <= 1 && (head != [] ==> head[0].id == SummaryId)
    requires |tail| == |recent| && forall k :: 0 <= k < |recent| ==> tail[k] == RepoActivity(recent[k])
    requires forall a, b :: 0 <= a < b < |recent| ==> recent[a].id != recent[b].id
    requires i < j < |head| + |tail|
    ensures (head + tail)[i].id != (head + tail)[j].id
  {
    var off := |head|;
    var y := tail[j - off];
    assert (head + tail)[j] == y;
    if i < off {
      assert (head + tail)[i] == head[0];
      RepoIdIsNotSummary(recent[j - off].id);
    } else {
      var x := tail[i - off];
      assert (head + tail)[i] == x;
      RepoIdInjective(recent[i - off].id, recent[j - off].id);
    }
  }

  lemma RepoIdIsNotSummary(id: string)
    ensures "repo-" + id != SummaryId
  {
    assert ("repo-" + id)[0] == 'r' && SummaryId[0] == 'g';
  }

  lemma RepoIdInjective(a: string, b: string)
    requires a != b
    ensures "repo-" + a != "repo-" + b
  {
    assert ("repo-" + a)[5..] == a && ("repo-" + b)[5..] == b;
  }

  /** The feed built step by step, as `activities.push(...)` does. */
  method BuildGithubActivities(total: nat, events: seq<GhEvent>, recent: seq<SimpleRepo>, now: Instant)
    returns (acts: seq<ActivityItem<Instant>>)
    ensures acts == GithubActivities(total, events, recent, now)
  {
    acts := [];
    if total > 0 {
      acts := acts + [SummaryActivity(total, events, now)];
    }
    var head := acts;
    var i := 0;
    while i < |recent|
      invariant 0 <= i <= |recent|
      invariant head == SummaryPart(total, events, now)
      invariant acts == head + RepoActivities(recent[..i])
    {
      RepoActivitiesAppend(recent, i);
      acts := acts + [RepoActivity(recent[i])];
      i := i + 1;
    }
    assert recent[..i] == recent;
  }

  /** The outcomes that end in the catch-all result: either fetch rejected, the
      repositories response was not OK or not JSON, or the events response was OK
      but not JSON (its `json()` throws inside the same `try`). */
  predicate GithubFails(repos: Reply<seq<GhRepo>>, events: Reply<seq<GhEvent>>) {
    repos.Rejected? || events.Rejected? || !repos.Json? || events.BadJson?
  }

  /** The events the page works with: none when the events response was not OK. */
  function EventsOf(events: Reply<seq<GhEvent>>): seq<GhEvent> {
    if events.Json? then events.body else []
  }

  /** `getGithubData()` on given fetch outcomes. */
  method GetGithubData(repos: Reply<seq<GhRepo>>, events: Reply<seq<GhEvent>>, now: Instant)
    returns (d: GithubData)
    ensures GithubFails(repos, events) ==> d == NoGithubData
    ensures !GithubFails(repos, events) ==>
      var evs := EventsOf(events);
      && d.projectsCount == |repos.body|
      && d.recentCommitCount == InWindow(evs, now.local)
      && d.recentRepos == RecentRepos(repos.body, now)
      && d.activities == GithubActivities(d.recentCommitCount, evs, d.recentRepos, now)
  {
    if repos.Rejected? || events.Rejected? {
      return NoGithubData;
    }
    if !repos.Json? {
      return NoGithubData;
    }
    var evs: seq<GhEvent> := [];
    if events.BadJson? {
      return NoGithubData;
    } else if events.Json? {
      evs := events.body;
    }
    var all := repos.body;
    var spark := Build8DaySparkline(evs, now);
    var total := Sum(spark);
    HistogramSum(evs, now.local);
    var recent := RecentRepos(all, now);
    var acts := BuildGithubActivities(total, evs, recent, now);
    d := GithubData(|all|, total, acts, recent);
  }

  /** Without a failure the push count is at most the number of events fetched,
      and a failed events fetch alone leaves the project count intact with no
      pushes counted. */
  lemma GithubDataCounts(repos: Reply<seq<GhRepo>>, events: Reply<seq<GhEvent>>, now: Instant)
    requires !GithubFails(repos, events)
    ensures InWindow(EventsOf(events), now.local) <= |EventsOf(events)|
    ensures events.NotOk? ==> InWindow(EventsOf(events), now.local) == 0
  {
  }

  /** The learning card's figures. */
  datatype LearningStats = LearningStats(
    totalCourses: nat, completedCourses: nat, totalLogs: nat, lastStudyLogAt: Option<nat>)

  /** The number of courses whose `completed` is exactly `true`. */
  function CountCompleted(courses: seq<CourseDoc>): (n: nat)
    ensures n <= |courses|
  {
    if courses == [] then 0
    else
      var last := courses[|courses| - 1];
      CountCompleted(courses[..|courses| - 1]) + (if last.completed == Some(true) then 1 else 0)
  }

  /** All courses count as completed exactly when every one has `completed === true`,
      and none does exactly when no course has. */
  lemma {:induction false} CountCompletedBounds(courses: seq<CourseDoc>)
    ensures CountCompleted(courses) == |courses| <==>
      forall i :: 0 <= i < |courses| ==> courses[i].completed == Some(true)
    ensures CountCompleted(courses) == 0 <==>
      forall i :: 0 <= i < |courses| ==> courses[i].completed != Some(true)
  {
    if courses != [] {
      var init := courses[..|courses| - 1];
      CountCompletedBounds(init);
      assert forall i :: 0 <= i < |init| ==> init[i] == courses[i];
    }
  }

  /** `learningStats` from all courses, the newest study logs (newest first) and
      the number of logs. */
  function LearningStatsOf(courses: seq<CourseDoc>, recentLogs: seq<(string, StudyLogDoc)>, totalLogs: nat)
    : (s: LearningStats)
    ensures s.totalCourses == |courses| && s.completedCourses == CountCompleted(courses)
    ensures s.completedCourses <= s.totalCourses && s.totalLogs == totalLogs
    ensures recentLogs == [] ==> s.lastStudyLogAt.None?
    ensures recentLogs != [] ==> s.lastStudyLogAt == Some(recentLogs[0].1.createdAt)
  {
    LearningStats(|courses|, CountCompleted(courses), totalLogs,
      if recentLogs == [] then None else Some(recentLogs[0].1.createdAt))
  }

  /** The feed entry of one study log, keyed by its id. Its link points at its
      course only when it names one. */
  function LearningActivity(id: string, log: StudyLogDoc): (a: ActivityItem<nat>)
    ensures a.id == id && a.kind == Learning && a.title == log.title
    ensures a.description == Some(TruncateText(log.content, DescriptionLimit))
    ensures a.date == log.createdAt
    ensures a.link.Some? <==> log.courseId != []
    ensures a.link.Some? ==> a.link.value == "/courses/" + log.courseId
  {
    ActivityItem(id, Learning, log.title, Some(TruncateText(log.content, DescriptionLimit)),
      log.createdAt, if log.courseId != [] then Some("/courses/" + log.courseId) else None)
  }

  function LearningActivities(recentLogs: seq<(string, StudyLogDoc)>): (acts: seq<ActivityItem<nat>>)
    ensures |acts| == |recentLogs|
    ensures forall i :: 0 <= i < |acts| ==> acts[i] == LearningActivity(recentLogs[i].0, recentLogs[i].1)
  {
    seq(|recentLogs|, i requires 0 <= i < |recentLogs| => LearningActivity(recentLogs[i].0, recentLogs[i].1))
  }
}
