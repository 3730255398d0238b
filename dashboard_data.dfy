/** `getDashboardData()`: the dashboard's figures read from the store, with the
    GitHub part passed in as already fetched. */
module DashboardLoad {
  import opened Wrappers
  import opened Time
  import opened Models
  import opened Store
  import opened DashboardPage

  datatype DashboardData = DashboardData(
    learningStats: LearningStats,
    projectsCount: nat,
    recentCommitCount: nat,
    learningActivities: seq<ActivityItem<nat>>,
    githubActivities: seq<ActivityItem<Instant>>,
    recentRepos: seq<SimpleRepo>)

  /** How many study logs the learning feed shows. */
  const RecentLogLimit := 4

  /** The documents of a list of entries, in order. */
  function Docs(s: seq<(string, CourseDoc)>): (r: seq<CourseDoc>)
    ensures |r| == |s|
    ensures forall i :: 0 <= i < |s| ==> r[i] == s[i].1
  {
    seq(|s|, i requires 0 <= i < |s| => s[i].1)
  }

  /** The ids of the stored courses whose `completed` is `true`. */
  ghost function CompletedIds(m: map<string, CourseDoc>): set<string> {
    set id | id in m && m[id].completed == Some(true)
  }

  /** Counting completed courses over any listing of the collection that holds
      each course once gives the number of completed courses stored. */
  lemma {:induction false} CountCompletedOfEntries(s: seq<(string, CourseDoc)>, m: map<string, CourseDoc>)
    requires Listing(s, m)
    ensures CountCompleted(Docs(s)) == |CompletedIds(m)|
  {
    if s == [] {
      assert CompletedIds(m) == {};
    } else {
      var n := |s| - 1;
      var init, k, v := s[..n], s[n].0, s[n].1;
      var rest := m - {k};
      ListingWithoutLast(s, m);
      CountCompletedOfEntries(init, rest);
      CountCompletedOfLast(s);
      CompletedIdsRemove(m, k);
    }
  }

  /** The count over a listing is the count without its last entry plus that
      entry's share. */
  lemma CountCompletedOfLast(s: seq<(string, CourseDoc)>)
    requires s != []
    ensures CountCompleted(Docs(s)) ==
      CountCompleted(Docs(s[..|s| - 1])) + (if s[|s| - 1].1.completed == Some(true) then 1 else 0)
  {
    assert Docs(s)[..|s| - 1] == Docs(s[..|s| - 1]);
  }

  /** `s` lists the entries of `m`, each once. */
  predicate Listing(s: seq<(string, CourseDoc)>, m: map<string, CourseDoc>) {
    && (forall i :: 0 <= i < |s| ==> s[i].0 in m && s[i].1 == m[s[i].0])
    && (forall k :: k in m ==> exists i :: 0 <= i < |s| && s[i].0 == k)
    && (forall i, j :: 0 <= i < j < |s| ==> s[i].0 != s[j].0)
  }

  /** Without its last entry, a listing lists the rest of the collection. */
  lemma ListingWithoutLast(s: seq<(string, CourseDoc)>, m: map<string, CourseDoc>)
    requires s != [] && Listing(s, m)
    ensures Listing(s[..|s| - 1], m - {s[|s| - 1].0})
  {
    var n := |s| - 1;
    var init, rest := s[..n], m - {s[n].0};
    forall i | 0 <= i < |init| ensures init[i].0 in rest && init[i].1 == rest[init[i].0] {
      assert init[i] == s[i];
    }
    forall key | key in rest ensures exists i :: 0 <= i < |init| && init[i].0 == key {
      var i :| 0 <= i < |s| && s[i].0 == key;
      assert i != n;
      assert init[i].0 == key;
    }
    forall i, j | 0 <= i < j < |init| ensures init[i].0 != init[j].0 {
      assert init[i] == s[i] && init[j] == s[j];
    }
  }

  /** Taking one course out of the collection takes it out of the completed ids
      and nothing else. */
  lemma CompletedIdsRemove(m: map<string, CourseDoc>, k: string)
    requires k in m
    ensures |CompletedIds(m)| == |CompletedIds(m - {k})| + (if m[k].completed == Some(true) then 1 else 0)
  {
    var a, b := CompletedIds(m), CompletedIds(m - {k});
    assert k !in b;
    forall x | x in a ensures x in b || x == k { }
    if m[k].completed == Some(true) {
      assert a == b + {k};
    } else {
      assert k !in a;
      assert a == b;
    }
  }

  /** The learning figures the dashboard promises: the counts over both
      collections, and the date of the latest log (none when there are no logs). */
  ghost predicate StatsFigures(courses: map<string, CourseDoc>, logs: map<string, StudyLogDoc>, s: LearningStats) {
    && s.totalCourses == |courses|
    && s.completedCourses == |CompletedIds(courses)|
    && s.totalLogs == |logs|
    && (s.lastStudyLogAt.None? <==> logs == map[])
    && (s.lastStudyLogAt.Some? ==>
         && (exists id :: id in logs && logs[id].createdAt == s.lastStudyLogAt.value)
         && (forall id :: id in logs ==> logs[id].createdAt <= s.lastStudyLogAt.value))
  }

  /** The learning feed the dashboard promises: the newest logs (at most four),
      each once, newest first, each rendered by `LearningActivity`. */
  predicate FeedFigures(logs: map<string, StudyLogDoc>, acts: seq<ActivityItem<nat>>) {
    && |acts| == Min(RecentLogLimit, |logs|)
    && (forall i :: 0 <= i < |acts| ==> acts[i].id in logs && acts[i] == LearningActivity(acts[i].id, logs[acts[i].id]))
    && (forall i, j :: 0 <= i < j < |acts| ==> acts[i].id != acts[j].id)
    && (forall i, j :: 0 <= i < j < |acts| ==> acts[i].date >= acts[j].date)
    && (forall id :: id in logs ==>
         (exists i :: 0 <= i < |acts| && acts[i].id == id)
         || forall i :: 0 <= i < |acts| ==> logs[id].createdAt <= acts[i].date)
  }

  /** The statistics built from a listing of the courses and the newest logs are
      the promised figures. */
  lemma StatsOfStore(courses: map<string, CourseDoc>, logs: map<string, StudyLogDoc>,
                     entries: seq<(string, CourseDoc)>, recent: seq<(string, StudyLogDoc)>)
    requires |entries| == |courses|
    requires forall i :: 0 <= i < |entries| ==> entries[i].0 in courses && entries[i].1 == courses[entries[i].0]
    requires forall k :: k in courses ==> exists i :: 0 <= i < |entries| && entries[i].0 == k
    requires forall i, j :: 0 <= i < j < |entries| ==> entries[i].0 != entries[j].0
    requires NewestOf(logs, RecentLogLimit, recent)
    ensures StatsFigures(courses, logs, LearningStatsOf(Docs(entries), recent, |logs|))
  {
    CountCompletedOfEntries(entries, courses);
    if recent != [] {
      LatestLog(logs, recent);
      assert recent[0].0 in logs && logs[recent[0].0].createdAt == recent[0].1.createdAt;
    }
  }

  /** The feed built from the newest logs is the promised feed. */
  lemma FeedOfStore(logs: map<string, StudyLogDoc>, recent: seq<(string, StudyLogDoc)>)
    requires NewestOf(logs, RecentLogLimit, recent)
    ensures FeedFigures(logs, LearningActivities(recent))
  {
    FeedCoversLogs(logs, recent);
  }

  /** The first of the newest logs is the latest log of all. */
  lemma LatestLog(logs: map<string, StudyLogDoc>, recent: seq<(string, StudyLogDoc)>)
    requires recent != []
    requires forall i :: 0 <= i < |recent| ==> recent[i].0 in logs && recent[i].1 == logs[recent[i].0]
    requires forall i, j :: 0 <= i < j < |recent| ==> recent[i].1.createdAt >= recent[j].1.createdAt
    requires forall id :: id in logs ==>
      (id, logs[id]) in recent || forall i :: 0 <= i < |recent| ==> logs[id].createdAt <= recent[i].1.createdAt
    ensures forall id :: id in logs ==> logs[id].createdAt <= recent[0].1.createdAt
  {
    forall id | id in logs ensures logs[id].createdAt <= recent[0].1.createdAt {
      if (id, logs[id]) in recent {
        var k :| 0 <= k < |recent| && recent[k] == (id, logs[id]);
        assert k == 0 || recent[0].1.createdAt >= recent[k].1.createdAt;
      }
    }
  }

  /** A log missing from the learning feed is no newer than any log in it. */
  lemma FeedCoversLogs(logs: map<string, StudyLogDoc>, recent: seq<(string, StudyLogDoc)>)
    requires forall id :: id in logs ==>
      (id, logs[id]) in recent || forall i :: 0 <= i < |recent| ==> logs[id].createdAt <= recent[i].1.createdAt
    ensures var acts := LearningActivities(recent);
      forall id :: id in logs ==>
        (exists i :: 0 <= i < |acts| && acts[i].id == id)
        || forall i :: 0 <= i < |acts| ==> logs[id].createdAt <= acts[i].date
  {
    var acts := LearningActivities(recent);
    forall id | id in logs
      ensures (exists i :: 0 <= i < |acts| && acts[i].id == id)
        || forall i :: 0 <= i < |acts| ==> logs[id].createdAt <= acts[i].date
    {
      if (id, logs[id]) in recent {
        var k :| 0 <= k < |recent| && recent[k] == (id, logs[id]);
        assert acts[k].id == id;
      } else {
        assert forall i :: 0 <= i < |acts| ==> acts[i].date == recent[i].1.createdAt;
      }
    }
  }

  /** `getDashboardData()` over the two collections: one listing of the courses
      and one query for the four newest study logs feed the statistics and the
      learning feed; the GitHub figures are passed through. */
  method GetDashboardData(courses: map<string, CourseDoc>, logs: map<string, StudyLogDoc>, github: GithubData)
    returns (d: DashboardData)
    ensures StatsFigures(courses, logs, d.learningStats)
    ensures FeedFigures(logs, d.learningActivities)
    ensures d.projectsCount == github.projectsCount && d.recentCommitCount == github.recentCommitCount
    ensures d.githubActivities == github.activities && d.recentRepos == github.recentRepos
  {
    var entries := Entries(courses);
    var recent := NewestLogs(logs, RecentLogLimit);
    StatsOfStore(courses, logs, entries, recent);
    FeedOfStore(logs, recent);
    d := DashboardData(LearningStatsOf(Docs(entries), recent, |logs|), github.projectsCount,
      github.recentCommitCount, LearningActivities(recent), github.activities, github.recentRepos);
  }
}
