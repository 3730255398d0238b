/** The repositories page: the fetched repositories sorted in place, latest
    first, one card each, or an error panel when the request fails. */
module ReposPage {
  import opened Wrappers
  import opened Seqs
  import opened Text
  import opened Time
  import opened Sorting
  import opened GithubLib
  import opened DashboardPage
  import opened LangColors

  /** The sort time `new Date(pushed_at || updated_at).getTime()`: `updated_at`
      only counts when `pushed_at` is falsy, and `None` stands for NaN. */
  function SortTime(r: GhRepo): (t: Option<int>)
    ensures Truthy(r.pushedAt) ==> t == GetTime(r.pushedAt)
    ensures !Truthy(r.pushedAt) ==> t == GetTime(r.updatedAt)
  {
    GetTime(Or(r.pushedAt, r.updatedAt))
  }

  /** The comparator only orders consistently when every sort time is a number. */
  predicate SortTimed(repos: seq<GhRepo>) {
    forall i :: 0 <= i < |repos| ==> SortTime(repos[i]).Some?
  }

  /** `bTime - aTime` as an ascending key: latest first. */
  function LatestFirst(r: GhRepo): int {
    -SortTime(r).GetOr(0)
  }

  /** `repos.sort(...)`: an insertion sort in place that takes the elements from
      the back and inserts each into the sorted part behind it, which makes the
      array the stable sort of its old contents. */
  method SortRepos(a: array<GhRepo>)
    modifies a
    ensures a[..] == SortBy(old(a[..]), LatestFirst)
  {
    ghost var s0 := a[..];
    var i := a.Length;
    while i > 0
      invariant 0 <= i <= a.Length
      invariant a[..i] == s0[..i]
      invariant a[i..] == SortBy(s0[i..], LatestFirst)
    {
      assert a[i - 1] == s0[..i][i - 1];
      ghost var before := a[..];
      var m := Place(a, i, LatestFirst);
      PlacedIsInsert(before, a[..], i, m, LatestFirst);
      SortBySuffix(s0, i - 1);
      i := i - 1;
    }
    assert a[..] == a[0..];
  }

  /** Moves `a[lo - 1]` rightwards past the `m` elements behind it that sort
      strictly before it by `key`, shifting each of them one place left, and stops
      before the first one that does not (or at the end). */
  method Place<T>(a: array<T>, lo: nat, key: T -> int) returns (m: nat)
    requires 0 < lo <= a.Length
    modifies a
    ensures Placed(old(a[..]), a[..], lo, m, key)
  {
    ghost var before := a[..];
    var i := lo - 1;
    var x := a[i];
    var j := i;
    while j + 1 < a.Length && key(a[j + 1]) < key(x)
      invariant i <= j < a.Length
      invariant forall k :: 0 <= k < i ==> a[k] == before[k]
      invariant forall k :: i <= k < j ==> a[k] == before[k + 1]
      invariant forall k :: j < k < a.Length ==> a[k] == before[k]
      invariant forall k :: lo <= k <= j ==> key(before[k]) < key(x)
    {
      a[j] := a[j + 1];
      j := j + 1;
    }
    a[j] := x;
    m := j - i;
  }

  /** `after` is `before` with the element at `lo - 1` moved past the `m`
      elements behind it, all of which sort strictly before it, to just before
      the first one that does not (or to the end). */
  ghost predicate Placed<T>(before: seq<T>, after: seq<T>, lo: nat, m: nat, key: T -> int) {
    && 0 < lo && lo + m <= |before| == |after|
    && (forall k :: lo <= k < lo + m ==> key(before[k]) < key(before[lo - 1]))
    && (lo + m == |before| || key(before[lo - 1]) <= key(before[lo + m]))
    && (forall k :: 0 <= k < lo - 1 ==> after[k] == before[k])
    && (forall k :: lo - 1 <= k < lo - 1 + m ==> after[k] == before[k + 1])
    && after[lo - 1 + m] == before[lo - 1]
    && (forall k :: lo + m <= k < |after| ==> after[k] == before[k])
  }

  /** What `Place` leaves behind is the element inserted into the part after it,
      with the part before it unchanged. */
  lemma PlacedIsInsert<T>(before: seq<T>, after: seq<T>, lo: nat, m: nat, key: T -> int)
    requires Placed(before, after, lo, m, key)
    ensures after[..lo - 1] == before[..lo - 1]
    ensures after[lo - 1..] == Insert(before[lo - 1], before[lo..], key)
  {
    var x, t := before[lo - 1], before[lo..];
    forall k | 0 <= k < m ensures key(t[k]) < key(x) {
      assert t[k] == before[lo + k];
    }
    assert m < |t| ==> t[m] == before[lo + m];
    InsertAt(x, t, key, m);
    var ins := Insert(x, t, key);
    forall d | 0 <= d < |ins| ensures after[lo - 1 + d] == ins[d] {
      if d < m {
        assert t[d] == before[lo + d];
      } else if d > m {
        assert t[d - 1] == before[lo - 1 + d];
      }
    }
    DropOfElements(after, lo - 1, ins);
    TakeOfElements(after, before, lo - 1);
  }

  /** The stable sort of a suffix is its first element inserted into the sort of
      the rest. */
  lemma SortBySuffix(s: seq<GhRepo>, i: nat)
    requires i < |s|
    ensures SortBy(s[i..], LatestFirst) == Insert(s[i], SortBy(s[i + 1..], LatestFirst), LatestFirst)
  {
    assert s[i..][1..] == s[i + 1..];
  }

  /** The sorted repositories are the fetched ones, latest first, with repositories
      of equal time in their fetched order. */
  lemma SortedLatestFirst(repos: seq<GhRepo>)
    requires SortTimed(repos)
    ensures var s := SortBy(repos, LatestFirst);
      && multiset(s) == multiset(repos)
      && (forall i :: 0 <= i < |s| ==> SortTime(s[i]).Some?)
      && forall i, j :: 0 <= i < j < |s| ==> SortTime(s[i]).value >= SortTime(s[j]).value
  {
    var s := SortBy(repos, LatestFirst);
    forall i | 0 <= i < |s| ensures SortTime(s[i]).Some? {
      assert s[i] in multiset(repos);
    }
  }

  const NoDescription := "설명이 없습니다."

  /** The language badge: the name and its colour. */
  datatype LanguageTag = LanguageTag(name: string, color: string)

  /** What one `RepoCard` shows. */
  datatype Card = Card(
    name: string,
    url: string,
    description: string,
    stars: int,
    forks: int,
    watchers: int,
    updated: string,
    language: Option<LanguageTag>)

  /** `RepoCard`: `description || NoDescription`, the counts `?? 0`, the date
      `formatDate(pushed_at ?? updated_at)`, and the badge only for a non-empty
      language. */
  function CardOf(r: GhRepo): (c: Card)
    ensures c.name == r.name && c.url == r.htmlUrl
    ensures c.description == (if r.description.Some? && r.description.value != [] then r.description.value else NoDescription)
    ensures c.stars == r.stars.GetOr(0) && c.forks == r.forks.GetOr(0) && c.watchers == r.watchers.GetOr(0)
    ensures c.updated == FormatStamp(Coalesce(r.pushedAt, r.updatedAt))
    ensures c.language.Some? <==> r.language.Some? && r.language.value != []
    ensures c.language.Some? ==> c.language.value == LanguageTag(r.language.value, LangColor(r.language))
  {
    Card(r.name, r.htmlUrl,
      if r.description.Some? && r.description.value != [] then r.description.value else NoDescription,
      r.stars.GetOr(0), r.forks.GetOr(0), r.watchers.GetOr(0),
      FormatStamp(Coalesce(r.pushedAt, r.updatedAt)),
      if r.language.Some? && r.language.value != [] then Some(LanguageTag(r.language.value, LangColor(r.language))) else None)
  }

  /** The card's date uses `??` and the sort uses `||`: an empty `pushed_at` shows
      a dash although the repository is sorted by its `updated_at`. */
  lemma EmptyPushShowsDash(r: GhRepo)
    requires r.pushedAt == Empty && r.updatedAt.At?
    ensures CardOf(r).updated == "—"
    ensures SortTime(r) == Some(r.updatedAt.instant.ms)
  {
  }

  function Cards(repos: seq<GhRepo>): (r: seq<Card>)
    ensures |r| == |repos|
    ensures forall i :: 0 <= i < |repos| ==> r[i] == CardOf(repos[i])
  {
    seq(|repos|, i requires 0 <= i < |repos| => CardOf(repos[i]))
  }

  /** The page: the error panel, the empty-list message, or the cards. */
  datatype View = Failed(message: string) | NoRepos | Listed(cards: seq<Card>)

  /** `ReposPage()`: a response that is not OK raises `GitHub API error: <status>`;
      that error, or the one the request or the JSON parse throws (`thrown`), is
      shown in the error panel. A list is sorted in place and rendered card by
      card. */
  method LoadReposPage(reply: Reply<seq<GhRepo>>, thrown: string) returns (v: View)
    requires reply.Json? ==> SortTimed(reply.body)
    ensures reply.NotOk? ==> v == Failed("GitHub API error: " + NatToString(reply.status))
    ensures reply.Rejected? || reply.BadJson? ==> v == Failed(thrown)
    ensures reply.Json? && reply.body == [] ==> v == NoRepos
    ensures reply.Json? && reply.body != [] ==> v == Listed(Cards(SortBy(reply.body, LatestFirst)))
  {
    match reply
    case NotOk(status) =>
      v := Failed("GitHub API error: " + NatToString(status));
    case Rejected =>
      v := Failed(thrown);
    case BadJson =>
      v := Failed(thrown);
    case Json(body) =>
      var a := new GhRepo[|body|](k requires 0 <= k < |body| => body[k]);
      assert a[..] == body;
      SortRepos(a);
      if a.Length == 0 {
        v := NoRepos;
      } else {
        v := Listed(Cards(a[..]));
      }
  }
}
