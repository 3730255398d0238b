/** The server actions over the three collections, on an in-memory store: maps
    from id to document and a logical clock that stamps `createdAt`/`updatedAt`
    and names new documents. The `revalidatePath` calls are recorded in order. */
module Store {
  import opened Wrappers
  import opened Text
  import opened Sorting
  import opened Models
  import opened Seqs

  /** Why a write was refused: `Course not found`, or a Mongoose validation error
      naming the model and the required paths that were empty. */
  datatype StoreError = CourseNotFound | ValidationFailed(model: string, paths: seq<string>)

  /** What `mapCourse` returns. */
  datatype CourseView = CourseView(
    id: string, title: string, description: string, level: string, category: string,
    link: string, completed: bool, createdAt: nat, updatedAt: nat)

  /** What `mapLog` returns. */
  datatype LogView = LogView(
    id: string, courseId: string, title: string, content: string, createdAt: nat, updatedAt: nat)

  /** `mapCourse(doc)`: missing or `null` text fields read as `''`, `completed` as a
      strict boolean. */
  function MapCourse(id: string, d: CourseDoc): (v: CourseView)
    ensures v.id == id && v.title == d.title
    ensures v.description == d.description.GetOr("") && v.level == d.level.GetOr("")
    ensures v.category == d.category.GetOr("") && v.link == d.link.GetOr("")
    ensures v.completed <==> d.completed == Some(true)
    ensures v.createdAt == d.createdAt && v.updatedAt == d.updatedAt
  {
    CourseView(id, d.title, d.description.GetOr(""), d.level.GetOr(""), d.category.GetOr(""),
      d.link.GetOr(""), Completed(d), d.createdAt, d.updatedAt)
  }

  /** `mapLog(doc)`: the ids as strings, title and content as stored. */
  function MapLog(id: string, d: StudyLogDoc): (v: LogView)
    ensures v.id == id && v.courseId == d.courseId && v.title == d.title && v.content == d.content
    ensures v.createdAt == d.createdAt && v.updatedAt == d.updatedAt
  {
    LogView(id, d.courseId, d.title, d.content, d.createdAt, d.updatedAt)
  }

  /** A collection whose every document is named after its creation tick and was
      written before `clock`. */
  predicate Stamped<V>(m: map<string, V>, created: V -> nat, updated: V -> nat, clock: nat) {
    forall id :: id in m ==>
      id == NatToString(created(m[id])) && created(m[id]) <= updated(m[id]) < clock
  }

  /** The name of the next document is not taken. */
  lemma FreshKey<V>(m: map<string, V>, created: V -> nat, updated: V -> nat, clock: nat)
    requires Stamped(m, created, updated, clock)
    ensures NatToString(clock) !in m
  {
    forall id | id in m ensures id != NatToString(clock) {
      NatToStringInjective(created(m[id]), clock);
    }
  }

  /** Adding a document created now, or rewriting one with the current tick,
      keeps a collection stamped for the next tick. */
  lemma StampedAfterWrite<V>(m: map<string, V>, created: V -> nat, updated: V -> nat,
                             clock: nat, id: string, d: V)
    requires Stamped(m, created, updated, clock)
    requires id == NatToString(created(d)) && created(d) <= updated(d) == clock
    ensures Stamped(m[id := d], created, updated, clock + 1)
  {
  }

  lemma StampedAfterTick<V>(m: map<string, V>, created: V -> nat, updated: V -> nat, clock: nat)
    requires Stamped(m, created, updated, clock)
    ensures Stamped(m, created, updated, clock + 1)
  {
  }

  lemma StampedAfterRemove<V>(m: map<string, V>, created: V -> nat, updated: V -> nat,
                              clock: nat, id: string)
    requires Stamped(m, created, updated, clock)
    ensures Stamped(m - {id}, created, updated, clock)
  {
  }

  /** `createDashboardMemo` writes nothing without a user id or with a title
      that is missing or blank once trimmed. */
  predicate MemoRefused(userId: string, title: Option<string>) {
    userId == [] || title.None? || Trim(title.value) == []
  }

  /** The three collections of a store are stamped below its clock. */
  predicate StoreStamped(courses: map<string, CourseDoc>, logs: map<string, StudyLogDoc>,
                         memos: map<string, MemoDoc>, clock: nat) {
    && Stamped(courses, CourseCreated, CourseUpdated, clock)
    && Stamped(logs, LogCreated, LogUpdated, clock)
    && Stamped(memos, MemoCreated, MemoUpdated, clock)
  }

  /** Writing a course stamped with the clock and advancing the clock keeps the
      store stamped. */
  lemma CourseWritten(courses: map<string, CourseDoc>, logs: map<string, StudyLogDoc>,
                      memos: map<string, MemoDoc>, clock: nat, id: string, d: CourseDoc)
    requires StoreStamped(courses, logs, memos, clock)
    requires id == NatToString(d.createdAt) && d.createdAt <= d.updatedAt == clock
    ensures StoreStamped(courses[id := d], logs, memos, clock + 1)
  {
    StampedAfterWrite(courses, CourseCreated, CourseUpdated, clock, id, d);
    StampedAfterTick(logs, LogCreated, LogUpdated, clock);
    StampedAfterTick(memos, MemoCreated, MemoUpdated, clock);
  }

  lemma LogWritten(courses: map<string, CourseDoc>, logs: map<string, StudyLogDoc>,
                   memos: map<string, MemoDoc>, clock: nat, id: string, d: StudyLogDoc)
    requires StoreStamped(courses, logs, memos, clock)
    requires id == NatToString(d.createdAt) && d.createdAt <= d.updatedAt == clock
    ensures StoreStamped(courses, logs[id := d], memos, clock + 1)
  {
    StampedAfterWrite(logs, LogCreated, LogUpdated, clock, id, d);
    StampedAfterTick(courses, CourseCreated, CourseUpdated, clock);
    StampedAfterTick(memos, MemoCreated, MemoUpdated, clock);
  }

  lemma MemoWritten(courses: map<string, CourseDoc>, logs: map<string, StudyLogDoc>,
                    memos: map<string, MemoDoc>, clock: nat, id: string, d: MemoDoc)
    requires StoreStamped(courses, logs, memos, clock)
    requires id == NatToString(d.createdAt) && d.createdAt <= d.updatedAt == clock
    ensures StoreStamped(courses, logs, memos[id := d], clock + 1)
  {
    StampedAfterWrite(memos, MemoCreated, MemoUpdated, clock, id, d);
    StampedAfterTick(courses, CourseCreated, CourseUpdated, clock);
    StampedAfterTick(logs, LogCreated, LogUpdated, clock);
  }

  /** The entries of a map in some order, each once. */
  method Entries<V>(m: map<string, V>) returns (s: seq<(string, V)>)
    ensures |s| == |m|
    ensures forall i :: 0 <= i < |s| ==> s[i].0 in m && s[i].1 == m[s[i].0]
    ensures forall k :: k in m ==> exists i :: 0 <= i < |s| && s[i].0 == k
    ensures forall i, j :: 0 <= i < j < |s| ==> s[i].0 != s[j].0
  {
    var rest := m.Keys;
    s := [];
    while rest != {}
      invariant rest <= m.Keys
      invariant |s| + |rest| == |m|
      invariant forall i :: 0 <= i < |s| ==> s[i].0 in m && s[i].0 !in rest && s[i].1 == m[s[i].0]
      invariant forall k :: k in m && k !in rest ==> exists i :: 0 <= i < |s| && s[i].0 == k
      invariant forall i, j :: 0 <= i < j < |s| ==> s[i].0 != s[j].0
      decreases |rest|
    {
      var k :| k in rest;
      var s' := s + [(k, m[k])];
      forall key | key in m && key !in rest - {k}
        ensures exists i :: 0 <= i < |s'| && s'[i].0 == key
      {
        if key == k {
          assert s'[|s|].0 == key;
        } else {
          var i :| 0 <= i < |s| && s[i].0 == key;
          assert s'[i].0 == key;
        }
      }
      s := s';
      rest := rest - {k};
    }
  }

  /** All entries of a map, ordered by `key`. */
  method SortedEntries<V>(m: map<string, V>, key: ((string, V)) -> int) returns (s: seq<(string, V)>)
    ensures |s| == |m|
    ensures forall i :: 0 <= i < |s| ==> s[i].0 in m && s[i].1 == m[s[i].0]
    ensures forall id :: id in m ==> (id, m[id]) in s
    ensures DistinctIds(s)
    ensures SortedBy(s, key)
  {
    var entries := Entries(m);
    s := SortBy(entries, key);
    forall i | 0 <= i < |s| ensures s[i].0 in m && s[i].1 == m[s[i].0] {
      assert s[i] in multiset(entries);
    }
    forall id | id in m ensures (id, m[id]) in s {
      var j :| 0 <= j < |entries| && entries[j].0 == id;
      assert entries[j] in multiset(s);
    }
    SubIdsDistinct(entries, s, m);
  }

  /** The entries of a map whose document satisfies `p`, each once, ordered by
      `key`. */
  method SortedWhere<V>(m: map<string, V>, p: V -> bool, key: ((string, V)) -> int) returns (s: seq<(string, V)>)
    ensures forall i :: 0 <= i < |s| ==> s[i].0 in m && s[i].1 == m[s[i].0] && p(s[i].1)
    ensures forall id :: id in m && p(m[id]) ==> (id, m[id]) in s
    ensures DistinctIds(s) && |s| == |IdsWhere(m, p)|
    ensures SortedBy(s, key)
  {
    var entries := Entries(m);
    var mine := Select(entries, (e: (string, V)) => p(e.1));
    s := SortBy(mine, key);
    SelectCounts(entries, (e: (string, V)) => p(e.1));
    MatchingEntries(m, p, entries, s);
  }

  /** Entries counted as the matching entries of a listing of `m` that holds each
      id once are exactly the matching documents of `m`, each once. */
  lemma MatchingEntries<V>(m: map<string, V>, p: V -> bool, entries: seq<(string, V)>, s: seq<(string, V)>)
    requires forall i :: 0 <= i < |entries| ==> entries[i].0 in m && entries[i].1 == m[entries[i].0]
    requires forall k :: k in m ==> exists i :: 0 <= i < |entries| && entries[i].0 == k
    requires DistinctIds(entries)
    requires forall x :: multiset(s)[x] == if p(x.1) then multiset(entries)[x] else 0
    ensures forall i :: 0 <= i < |s| ==> s[i].0 in m && s[i].1 == m[s[i].0] && p(s[i].1)
    ensures forall id :: id in m && p(m[id]) ==> (id, m[id]) in s
    ensures DistinctIds(s) && |s| == |IdsWhere(m, p)|
  {
    forall i | 0 <= i < |s| ensures s[i].0 in m && s[i].1 == m[s[i].0] && p(s[i].1) {
      assert s[i] in multiset(s);
      assert s[i] in multiset(entries);
    }
    forall id | id in m && p(m[id]) ensures (id, m[id]) in s {
      var j :| 0 <= j < |entries| && entries[j].0 == id;
      assert entries[j] in multiset(entries);
      assert (id, m[id]) in multiset(s);
    }
    SubIdsDistinct(entries, s, m);
    forall k | k in IdsWhere(m, p) ensures exists i :: 0 <= i < |s| && s[i].0 == k {
      var i :| 0 <= i < |s| && s[i] == (k, m[k]);
    }
    IdsCount(s, IdsWhere(m, p));
  }

  /** No two entries share an id. */
  predicate DistinctIds<V>(s: seq<(string, V)>) {
    forall i, j :: 0 <= i < j < |s| ==> s[i].0 != s[j].0
  }

  /** Entries with distinct ids occur at most once each. */
  lemma {:induction false} OnceEach<V>(s: seq<(string, V)>, x: (string, V))
    requires DistinctIds(s)
    ensures multiset(s)[x] <= 1
  {
    if s != [] {
      var t := s[1..];
      assert forall i :: 0 <= i < |t| ==> t[i] == s[i + 1];
      OnceEach(t, x);
      assert s == [s[0]] + t;
      assert multiset(s) == multiset([s[0]]) + multiset(t);
      if x == s[0] {
        assert x !in t;
      }
    }
  }

  /** Entries taken, at most as often, from entries with distinct ids, each the
      map's entry for its id, have distinct ids too. */
  lemma SubIdsDistinct<V>(a: seq<(string, V)>, b: seq<(string, V)>, m: map<string, V>)
    requires DistinctIds(a)
    requires forall x :: multiset(b)[x] <= multiset(a)[x]
    requires forall i :: 0 <= i < |b| ==> b[i].0 in m && b[i].1 == m[b[i].0]
    ensures DistinctIds(b)
  {
    forall i, j | 0 <= i < j < |b| ensures b[i].0 != b[j].0 {
      if b[i].0 == b[j].0 {
        TwiceCounted(b, i, j);
        OnceEach(a, b[i]);
        assert false;
      }
    }
  }

  /** Entries with distinct ids naming exactly the ids of `ids` number `|ids|`. */
  lemma {:induction false} IdsCount<V>(s: seq<(string, V)>, ids: set<string>)
    requires DistinctIds(s)
    requires forall i :: 0 <= i < |s| ==> s[i].0 in ids
    requires forall k :: k in ids ==> exists i :: 0 <= i < |s| && s[i].0 == k
    ensures |s| == |ids|
  {
    if s == [] {
      assert ids == {};
    } else {
      var t, rest := s[1..], ids - {s[0].0};
      assert forall i :: 0 <= i < |t| ==> t[i] == s[i + 1];
      forall k | k in rest ensures exists i :: 0 <= i < |t| && t[i].0 == k {
        var i :| 0 <= i < |s| && s[i].0 == k;
        assert t[i - 1].0 == k;
      }
      IdsCount(t, rest);
    }
  }

  /** The ids of the documents of `m` that satisfy `p`. */
  function IdsWhere<V>(m: map<string, V>, p: V -> bool): set<string> {
    set id | id in m && p(m[id])
  }

  /** `docs.map(mapCourse)`. */
  function CourseViews(s: seq<(string, CourseDoc)>): (r: seq<CourseView>)
    ensures |r| == |s|
    ensures forall i :: 0 <= i < |s| ==> r[i] == MapCourse(s[i].0, s[i].1)
  {
    seq(|s|, i requires 0 <= i < |s| => MapCourse(s[i].0, s[i].1))
  }

  /** `docs.map(mapLog)`. */
  function LogViews(s: seq<(string, StudyLogDoc)>): (r: seq<LogView>)
    ensures |r| == |s|
    ensures forall i :: 0 <= i < |s| ==> r[i] == MapLog(s[i].0, s[i].1)
  {
    seq(|s|, i requires 0 <= i < |s| => MapLog(s[i].0, s[i].1))
  }

  function CourseNewest(e: (string, CourseDoc)): int { -(e.1.createdAt as int) }
  function LogNewest(e: (string, StudyLogDoc)): int { -(e.1.createdAt as int) }
  function MemoNewest(e: (string, MemoDoc)): int { -(e.1.createdAt as int) }

  function CourseCreated(d: CourseDoc): nat { d.createdAt }
  function CourseUpdated(d: CourseDoc): nat { d.updatedAt }
  function LogCreated(d: StudyLogDoc): nat { d.createdAt }
  function LogUpdated(d: StudyLogDoc): nat { d.updatedAt }
  function MemoCreated(d: MemoDoc): nat { d.createdAt }
  function MemoUpdated(d: MemoDoc): nat { d.updatedAt }

  /** Every required string path of a new study log that is empty after trimming. */
  function StudyLogMissing(courseId: string, title: string, content: string): (r: seq<string>)
    ensures r == [] <==> courseId != [] && Trim(title) != [] && Trim(content) != []
  {
    (if courseId == [] then ["courseId"] else [])
      + (if Trim(title) == [] then ["title"] else [])
      + (if Trim(content) == [] then ["content"] else [])
  }

  const MemoLimit := 10

  /** `r` lists `limit` of the logs (all of them when there are fewer), each
      once, newest first, and no log left out is newer than one listed. */
  predicate NewestOf(logs: map<string, StudyLogDoc>, limit: nat, r: seq<(string, StudyLogDoc)>) {
    && |r| == (if |logs| < limit then |logs| else limit)
    && (forall i :: 0 <= i < |r| ==> r[i].0 in logs && r[i].1 == logs[r[i].0])
    && DistinctIds(r)
    && (forall i, j :: 0 <= i < j < |r| ==> r[i].1.createdAt >= r[j].1.createdAt)
    && (forall id :: id in logs ==>
         (id, logs[id]) in r || forall i :: 0 <= i < |r| ==> logs[id].createdAt <= r[i].1.createdAt)
  }

  /** `StudyLog.find().sort({ createdAt: -1 }).limit(limit)`: the `limit` newest
      logs of all courses, newest first. */
  method NewestLogs(logs: map<string, StudyLogDoc>, limit: nat) returns (r: seq<(string, StudyLogDoc)>)
    ensures NewestOf(logs, limit, r)
  {
    var sorted := SortedEntries(logs, LogNewest);
    var n := if |sorted| < limit then |sorted| else limit;
    r := sorted[..n];
    forall a, b | 0 <= a < b < |r| ensures r[a].1.createdAt >= r[b].1.createdAt {
      assert LogNewest(sorted[a]) <= LogNewest(sorted[b]);
    }
    forall id | id in logs
      ensures (id, logs[id]) in r || forall i :: 0 <= i < |r| ==> logs[id].createdAt <= r[i].1.createdAt
    {
      PrefixOfSorted(sorted, LogNewest, n, (id, logs[id]));
      assert forall i :: 0 <= i < |r| ==> LogNewest(r[i]) == -(r[i].1.createdAt as int);
    }
  }

  class Store {
    var courses: map<string, CourseDoc>
    var logs: map<string, StudyLogDoc>
    var memos: map<string, MemoDoc>
    var clock: nat
    /** The paths passed to `revalidatePath`, oldest first. */
    var revalidated: seq<string>

    predicate Valid()
      reads this`courses, this`logs, this`memos, this`clock
    {
      StoreStamped(courses, logs, memos, clock)
    }

    constructor ()
      ensures Valid()
      ensures courses == map[] && logs == map[] && memos == map[]
      ensures clock == 0 && revalidated == []
    {
      courses, logs, memos := map[], map[], map[];
      clock, revalidated := 0, [];
    }

    /** Saves a document created now under a fresh name, which is its creation
        tick. */
    method AddCourse(d: CourseDoc)
      requires Valid() && d.createdAt == d.updatedAt == clock
      modifies this`courses, this`clock
      ensures Valid()
      ensures NatToString(old(clock)) !in old(courses)
      ensures courses == old(courses)[NatToString(old(clock)) := d] && clock == old(clock) + 1
    {
      FreshKey(courses, CourseCreated, CourseUpdated, clock);
      PutCourse(NatToString(clock), d);
    }

    /** Saves a document stamped with the current tick under its name and
        advances the clock. */
    method PutCourse(id: string, d: CourseDoc)
      requires Valid() && id == NatToString(d.createdAt) && d.createdAt <= d.updatedAt == clock
      modifies this`courses, this`clock
      ensures Valid()
      ensures courses == old(courses)[id := d] && clock == old(clock) + 1
    {
      CourseWritten(courses, logs, memos, clock, id, d);
      courses := courses[id := d];
      clock := clock + 1;
    }

    method AddLog(d: StudyLogDoc)
      requires Valid() && d.createdAt == d.updatedAt == clock
      modifies this`logs, this`clock
      ensures Valid()
      ensures NatToString(old(clock)) !in old(logs)
      ensures logs == old(logs)[NatToString(old(clock)) := d] && clock == old(clock) + 1
    {
      FreshKey(logs, LogCreated, LogUpdated, clock);
      PutLog(NatToString(clock), d);
    }

    method PutLog(id: string, d: StudyLogDoc)
      requires Valid() && id == NatToString(d.createdAt) && d.createdAt <= d.updatedAt == clock
      modifies this`logs, this`clock
      ensures Valid()
      ensures logs == old(logs)[id := d] && clock == old(clock) + 1
    {
      LogWritten(courses, logs, memos, clock, id, d);
      logs := logs[id := d];
      clock := clock + 1;
    }

    method AddMemo(d: MemoDoc)
      requires Valid() && d.createdAt == d.updatedAt == clock
      modifies this`memos, this`clock
      ensures Valid()
      ensures NatToString(old(clock)) !in old(memos)
      ensures memos == old(memos)[NatToString(old(clock)) := d] && clock == old(clock) + 1
    {
      FreshKey(memos, MemoCreated, MemoUpdated, clock);
      PutMemo(NatToString(clock), d);
    }

    method PutMemo(id: string, d: MemoDoc)
      requires Valid() && id == NatToString(d.createdAt) && d.createdAt <= d.updatedAt == clock
      modifies this`memos, this`clock
      ensures Valid()
      ensures memos == old(memos)[id := d] && clock == old(clock) + 1
    {
      MemoWritten(courses, logs, memos, clock, id, d);
      memos := memos[id := d];
      clock := clock + 1;
    }

    /** `getAllCourses()`: every course, mapped, newest first. */
    method GetAllCourses() returns (r: seq<CourseView>)
      ensures |r| == |courses|
      ensures forall i :: 0 <= i < |r| ==> r[i].id in courses && r[i] == MapCourse(r[i].id, courses[r[i].id])
      ensures forall id :: id in courses ==> exists i :: 0 <= i < |r| && r[i].id == id
      ensures forall i, j :: 0 <= i < j < |r| ==> r[i].id != r[j].id
      ensures forall i, j :: 0 <= i < j < |r| ==> r[i].createdAt >= r[j].createdAt
    {
      var sorted := SortedEntries(courses, CourseNewest);
      r := CourseViews(sorted);
      forall id | id in courses ensures exists k :: 0 <= k < |r| && r[k].id == id {
        var k :| 0 <= k < |sorted| && sorted[k] == (id, courses[id]);
        assert r[k].id == id;
      }
      forall a, b | 0 <= a < b < |r| ensures r[a].createdAt >= r[b].createdAt {
        assert CourseNewest(sorted[a]) <= CourseNewest(sorted[b]);
      }
      forall a, b | 0 <= a < b < |r| ensures r[a].id != r[b].id {
        assert r[a].id == sorted[a].0 && r[b].id == sorted[b].0;
      }
    }

    /** `getCourseById(id)`: the mapped course, or nothing for an unknown id. */
    method GetCourseById(id: string) returns (r: Option<CourseView>)
      ensures id in courses ==> r == Some(MapCourse(id, courses[id]))
      ensures id !in courses ==> r.None?
    {
      if id in courses {
        r := Some(MapCourse(id, courses[id]));
      } else {
        r := None;
      }
    }

    /** `createCourse(input)`: one new course, or a validation error when the title
      is blank once trimmed. */
    method CreateCourse(input: CourseInput) returns (res: Outcome<StoreError>)
      requires Valid()
      modifies this`courses, this`clock
      ensures Valid()
      ensures Trim(input.title) == [] ==>
        res == Fail(ValidationFailed("Course", ["title"]))
        && courses == old(courses) && clock == old(clock)
      ensures Trim(input.title) != [] ==>
        && res.Pass?
        && NatToString(old(clock)) !in old(courses)
        && courses == old(courses)[NatToString(old(clock)) := NewCourse(input, old(clock))]
        && clock == old(clock) + 1
    {
      if Trim(input.title) == [] {
        return Fail(ValidationFailed("Course", ["title"]));
      }
      AddCourse(NewCourse(input, clock));
      res := Pass;
    }

    /** `updateCourse(id, input)`: a full replace of the five text fields; an unknown
        id changes nothing. Update queries do not run validators, so a blank title
        is stored as `''`. */
    method UpdateCourse(id: string, input: CourseInput)
      requires Valid()
      modifies this`courses, this`clock
      ensures Valid()
      ensures id !in old(courses) ==> courses == old(courses) && clock == old(clock)
      ensures id in old(courses) ==>
        && courses == old(courses)[id := ReplacedCourse(old(courses)[id], input, old(clock))]
        && clock == old(clock) + 1
    {
      if id in courses {
        PutCourse(id, ReplacedCourse(courses[id], input, clock));
      }
    }

    /** `toggleCourseCompleted(id)`: flips `completed` and emits the list and the
        detail page for revalidation. An unknown id is `Course not found`; saving a
        course whose stored title is `''` fails the schema's `required` check. */
    method ToggleCourseCompleted(id: string) returns (res: Outcome<StoreError>)
      requires Valid()
      modifies this`courses, this`clock, this`revalidated
      ensures Valid()
      ensures id !in old(courses) ==>
        res == Fail(CourseNotFound)
        && courses == old(courses) && clock == old(clock) && revalidated == old(revalidated)
      ensures id in old(courses) && old(courses)[id].title == [] ==>
        res == Fail(ValidationFailed("Course", ["title"]))
        && courses == old(courses) && clock == old(clock) && revalidated == old(revalidated)
      ensures id in old(courses) && old(courses)[id].title != [] ==>
        && res.Pass?
        && courses == old(courses)[id := ToggledCourse(old(courses)[id], old(clock))]
        && clock == old(clock) + 1
        && revalidated == old(revalidated) + ["/courses", "/courses/" + id]
    {
      if id !in courses {
        return Fail(CourseNotFound);
      }
      if !RequiredOk(courses[id].title) {
        return Fail(ValidationFailed("Course", ["title"]));
      }
      PutCourse(id, ToggledCourse(courses[id], clock));
      revalidated := revalidated + ["/courses"];
      revalidated := revalidated + ["/courses/" + id];
      res := Pass;
    }

    /** `deleteCourse(id)`: removes that course only; an unknown id is no error and
        changes nothing. The course's study logs are kept. */
    method DeleteCourse(id: string)
      requires Valid()
      modifies this`courses
      ensures Valid()
      ensures courses == old(courses) - {id}
      ensures id !in old(courses) ==> courses == old(courses)
    {
      StampedAfterRemove(courses, CourseCreated, CourseUpdated, clock, id);
      courses := courses - {id};
    }

    /** `getLogsByCourseId(courseId)`: the logs of that course, each once, mapped,
        newest first. */
    method GetLogsByCourseId(courseId: string) returns (r: seq<LogView>)
      ensures |r| == |set id | id in logs && logs[id].courseId == courseId|
      ensures forall i :: 0 <= i < |r| ==>
        r[i].id in logs && r[i] == MapLog(r[i].id, logs[r[i].id]) && r[i].courseId == courseId
      ensures forall id :: id in logs && logs[id].courseId == courseId ==>
        exists i :: 0 <= i < |r| && r[i].id == id
      ensures forall i, j :: 0 <= i < j < |r| ==> r[i].id != r[j].id
      ensures forall i, j :: 0 <= i < j < |r| ==> r[i].createdAt >= r[j].createdAt
    {
      var p := (d: StudyLogDoc) => d.courseId == courseId;
      var sorted := SortedWhere(logs, p, LogNewest);
      assert IdsWhere(logs, p) == set id | id in logs && logs[id].courseId == courseId;
      r := LogViews(sorted);
      forall id | id in logs && logs[id].courseId == courseId
        ensures exists k :: 0 <= k < |r| && r[k].id == id
      {
        var k :| 0 <= k < |sorted| && sorted[k] == (id, logs[id]);
        assert r[k].id == id;
      }
      forall a, b | 0 <= a < b < |r| ensures r[a].createdAt >= r[b].createdAt {
        assert LogNewest(sorted[a]) <= LogNewest(sorted[b]);
      }
    }

    /** `createStudyLog(input)`: stores the log with title and content trimmed, or
        reports the required paths left empty. Whether `courseId` names an
        existing course is not checked. */
    method CreateStudyLog(courseId: string, title: string, content: string) returns (res: Outcome<StoreError>)
      requires Valid()
      modifies this`logs, this`clock
      ensures Valid()
      ensures StudyLogMissing(courseId, title, content) != [] ==>
        res == Fail(ValidationFailed("StudyLog", StudyLogMissing(courseId, title, content)))
        && logs == old(logs) && clock == old(clock)
      ensures StudyLogMissing(courseId, title, content) == [] ==>
        && res.Pass?
        && NatToString(old(clock)) !in old(logs)
        && logs == old(logs)[NatToString(old(clock)) := NewStudyLog(courseId, title, content, old(clock))]
        && clock == old(clock) + 1
    {
      var missing := StudyLogMissing(courseId, title, content);
      if missing != [] {
        return Fail(ValidationFailed("StudyLog", missing));
      }
      AddLog(NewStudyLog(courseId, title, content, clock));
      res := Pass;
    }

    /** `updateStudyLog(id, input)`: sets title and content (trimmed) on that log
        only, keeping its course; an unknown id changes nothing. */
    method UpdateStudyLog(id: string, edit: LogEdit)
      requires Valid()
      modifies this`logs, this`clock
      ensures Valid()
      ensures id !in old(logs) ==> logs == old(logs) && clock == old(clock)
      ensures id in old(logs) ==>
        && logs == old(logs)[id := EditedStudyLog(old(logs)[id], edit, old(clock))]
        && clock == old(clock) + 1
    {
      if id in logs {
        PutLog(id, EditedStudyLog(logs[id], edit, clock));
      }
    }

    /** `deleteStudyLog(id)`: removes that log only; idempotent. */
    method DeleteStudyLog(id: string)
      requires Valid()
      modifies this`logs
      ensures Valid()
      ensures logs == old(logs) - {id}
      ensures id !in old(logs) ==> logs == old(logs)
    {
      StampedAfterRemove(logs, LogCreated, LogUpdated, clock, id);
      logs := logs - {id};
    }

    /** `getMemosByUserId(userId)`: nothing for an empty user id; otherwise ten of
        the user's memos (all of them when there are fewer), each once, newest
        first, and no memo of the user that was left out is newer than one
        returned. */
    method GetMemosByUserId(userId: string) returns (r: seq<(string, MemoDoc)>)
      ensures userId == [] ==> r == []
      ensures userId != [] ==>
        var owned := |set id | id in memos && memos[id].userId == userId|;
        |r| == if owned < MemoLimit then owned else MemoLimit
      ensures forall i :: 0 <= i < |r| ==> r[i].0 in memos && r[i].1 == memos[r[i].0] && r[i].1.userId == userId
      ensures DistinctIds(r)
      ensures forall i, j :: 0 <= i < j < |r| ==> r[i].1.createdAt >= r[j].1.createdAt
      ensures userId != [] ==> forall id :: id in memos && memos[id].userId == userId ==>
        (id, memos[id]) in r || forall i :: 0 <= i < |r| ==> memos[id].createdAt <= r[i].1.createdAt
    {
      if userId == [] {
        return [];
      }
      var p := (d: MemoDoc) => d.userId == userId;
      var sorted := SortedWhere(memos, p, MemoNewest);
      assert IdsWhere(memos, p) == set id | id in memos && memos[id].userId == userId;
      var n := if |sorted| < MemoLimit then |sorted| else MemoLimit;
      r := sorted[..n];
      forall a, b | 0 <= a < b < |r| ensures r[a].1.createdAt >= r[b].1.createdAt {
        assert MemoNewest(sorted[a]) <= MemoNewest(sorted[b]);
      }
      forall id | id in memos && memos[id].userId == userId
        ensures (id, memos[id]) in r || forall i :: 0 <= i < |r| ==> memos[id].createdAt <= r[i].1.createdAt
      {
        PrefixOfSorted(sorted, MemoNewest, n, (id, memos[id]));
        assert forall i :: 0 <= i < |r| ==> MemoNewest(r[i]) == -(r[i].1.createdAt as int);
      }
    }

    /** `createDashboardMemo(params)`: nothing without a user id or with a title
        that is blank once trimmed; otherwise one new memo. */
    method CreateDashboardMemo(userId: string, title: Option<string>, content: Option<string>)
      requires Valid()
      modifies this`memos, this`clock
      ensures Valid()
      ensures MemoRefused(userId, title) ==> memos == old(memos) && clock == old(clock)
      ensures !MemoRefused(userId, title) ==>
        && NatToString(old(clock)) !in old(memos)
        && memos == old(memos)[NatToString(old(clock)) := NewMemo(userId, title.value, content, old(clock))]
        && clock == old(clock) + 1
    {
      if !MemoRefused(userId, title) {
        AddMemo(NewMemo(userId, title.value, content, clock));
      }
    }

    /** The memo the owner-scoped queries match: that id and that owner. */
    predicate Owns(id: string, userId: string)
      reads this
    {
      id in memos && memos[id].userId == userId
    }

    /** `updateDashboardMemo(params)`: a partial patch of the owner's memo. Nothing
        happens for an empty id or user id, when neither field is supplied, or when
        no memo has both that id and that owner. */
    method UpdateDashboardMemo(id: string, userId: string, title: Option<string>, content: Option<string>)
      requires Valid()
      modifies this`memos, this`clock
      ensures Valid()
      ensures (id == [] || userId == [] || (title.None? && content.None?) || !old(Owns(id, userId))) ==>
        memos == old(memos) && clock == old(clock)
      ensures !(id == [] || userId == [] || (title.None? && content.None?) || !old(Owns(id, userId))) ==>
        && memos == old(memos)[id := PatchedMemo(old(memos)[id], title, content, old(clock))]
        && clock == old(clock) + 1
    {
      if id == [] || userId == [] {
        return;
      }
      if title.None? && content.None? {
        return;
      }
      if Owns(id, userId) {
        PutMemo(id, PatchedMemo(memos[id], title, content, clock));
      }
    }

    /** `toggleDashboardMemoDone(id, userId)`: flips `isDone` on the owner's memo;
        nothing happens for empty arguments, a missing memo or another owner's
        memo. Saving a memo whose stored title is `''` fails validation. */
    method ToggleDashboardMemoDone(id: string, userId: string) returns (res: Outcome<StoreError>)
      requires Valid()
      modifies this`memos, this`clock
      ensures Valid()
      ensures (id == [] || userId == [] || !old(Owns(id, userId))) ==>
        res.Pass? && memos == old(memos) && clock == old(clock)
      ensures !(id == [] || userId == [] || !old(Owns(id, userId))) && old(memos)[id].title == [] ==>
        res == Fail(ValidationFailed("DashboardMemo", ["title"]))
        && memos == old(memos) && clock == old(clock)
      ensures !(id == [] || userId == [] || !old(Owns(id, userId))) && old(memos)[id].title != [] ==>
        && res.Pass?
        && memos == old(memos)[id := ToggledMemo(old(memos)[id], old(clock))]
        && clock == old(clock) + 1
    {
      if id == [] || userId == [] || !Owns(id, userId) {
        return Pass;
      }
      if !RequiredOk(memos[id].title) {
        return Fail(ValidationFailed("DashboardMemo", ["title"]));
      }
      PutMemo(id, ToggledMemo(memos[id], clock));
      res := Pass;
    }

    /** `deleteDashboardMemo(id, userId)`: removes the memo only when it has both
        that id and that owner. */
    method DeleteDashboardMemo(id: string, userId: string)
      requires Valid()
      modifies this`memos
      ensures Valid()
      ensures (id != [] && userId != [] && old(Owns(id, userId))) ==> memos == old(memos) - {id}
      ensures !(id != [] && userId != [] && old(Owns(id, userId))) ==> memos == old(memos)
    {
      if id != [] && userId != [] && Owns(id, userId) {
        StampedAfterRemove(memos, MemoCreated, MemoUpdated, clock, id);
        memos := memos - {id};
      }
    }
  }
}
