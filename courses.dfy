/** The course list: unfinished courses first, and per card the id, the
    completion flag and whether the course link is usable. */
module CoursesList {
  import opened Wrappers
  import opened Text
  import opened Sorting

  /** A course as the list receives it; `id` and `_id` may each be missing. */
  datatype Course = Course(
    id: Option<string>,
    mongoId: Option<string>,
    title: string,
    level: Option<string>,
    description: Option<string>,
    link: Option<string>,
    completed: Option<bool>)

  /** `completed ?? false` as a sort key: 0 for unfinished, 1 for finished. The
      comparator `ac === bc ? 0 : ac ? 1 : -1` orders exactly by this key. */
  function CompletedKey(c: Course): int {
    if c.completed.GetOr(false) then 1 else 0
  }

  predicate IsCompleted(c: Course) {
    c.completed == Some(true)
  }

  /** `[...courses].sort(...)`: a stable sort that moves finished courses behind
      unfinished ones. */
  function CompletedLast(courses: seq<Course>): (r: seq<Course>)
    ensures |r| == |courses| && multiset(r) == multiset(courses)
    ensures forall i, j :: 0 <= i < j < |r| && IsCompleted(r[i]) ==> IsCompleted(r[j])
  {
    var r := SortBy(courses, CompletedKey);
    assert forall i, j :: 0 <= i < j < |r| ==> CompletedKey(r[i]) <= CompletedKey(r[j]);
    r
  }

  /** The sorted list is the unfinished courses in their original order followed
      by the finished ones in their original order. */
  lemma CompletedLastKeepsOrder(courses: seq<Course>)
    ensures CompletedLast(courses)
         == WithKey(courses, CompletedKey, 0) + WithKey(courses, CompletedKey, 1)
  {
    SortByTwoKeys(courses, CompletedKey);
  }

  /** `course.id ?? course._id ?? ''`. */
  function CardId(c: Course): (r: string)
    ensures c.id.Some? ==> r == c.id.value
    ensures c.id.None? && c.mongoId.Some? ==> r == c.mongoId.value
    ensures c.id.None? && c.mongoId.None? ==> r == []
  {
    c.id.GetOr(c.mongoId.GetOr(""))
  }

  /** The link trimmed, or `''` when it is not a string. */
  function RawLink(c: Course): string {
    if c.link.Some? then Trim(c.link.value) else ""
  }

  /** A match of `/^(https?:)?\/\//` at the start of `s`, following the pattern:
      an optional `http`, optional `s` and `:` group, then two slashes. */
  predicate UrlStart(s: string) {
    || IsPrefix("//", s)
    || (IsPrefix("http", s) && (IsPrefix("://", s[4..]) || IsPrefix("s://", s[4..])))
  }

  /** The pattern accepts exactly the protocol-relative, `http://` and `https://`
      prefixes. */
  lemma UrlStartIff(s: string)
    ensures UrlStart(s) <==> IsPrefix("//", s) || IsPrefix("http://", s) || IsPrefix("https://", s)
  {
    PrefixConcat("http", "://", s);
    PrefixConcat("http", "s://", s);
    assert "http" + "://" == "http://" && "http" + "s://" == "https://";
  }

  /** `hasLink`: the trimmed link is non-empty and starts like a URL. */
  function HasLink(c: Course): (r: bool)
    ensures r <==> |RawLink(c)| > 0 && UrlStart(RawLink(c))
  {
    var raw := RawLink(c);
    |raw| > 0 && UrlStart(raw)
  }

  /** A link made of white space only, or a missing one, is never usable. */
  lemma BlankLinkHasNoLink(c: Course)
    requires c.link.None? || AllSpace(c.link.value)
    ensures !HasLink(c)
  {
    if c.link.Some? {
      TrimEmptyIff(c.link.value);
    }
  }

  /** A text field rendered by `field && ...`: only a non-empty string shows. */
  function Shown(f: Option<string>): (r: Option<string>)
    ensures r.Some? <==> f.Some? && f.value != []
    ensures r.Some? ==> r == f
  {
    if f.Some? && f.value != [] then f else None
  }

  /** What one card shows. */
  datatype Card = Card(
    key: string,
    title: string,
    detailHref: Option<string>,
    level: Option<string>,
    description: Option<string>,
    linkHref: Option<string>,
    completed: bool,
    toggle: bool)

  /** `CourseCard`: the title links to the detail page and the completion toggle
      shows only when the course has an id; the course link is offered only when
      usable; `completed` is a strict boolean. */
  function CardOf(c: Course): (r: Card)
    ensures r.key == CardId(c) && r.title == c.title
    ensures r.detailHref.Some? <==> CardId(c) != []
    ensures r.detailHref.Some? ==> r.detailHref.value == "/courses/" + CardId(c)
    ensures r.toggle <==> CardId(c) != []
    ensures r.linkHref.Some? <==> HasLink(c)
    ensures r.linkHref.Some? ==> r.linkHref.value == RawLink(c)
    ensures r.completed <==> IsCompleted(c)
    ensures r.level == Shown(c.level) && r.description == Shown(c.description)
  {
    var id := CardId(c);
    Card(id, c.title,
      if id != [] then Some("/courses/" + id) else None,
      Shown(c.level), Shown(c.description),
      if HasLink(c) then Some(RawLink(c)) else None,
      IsCompleted(c), id != [])
  }

  /** `Courses({ courses })`: nothing at all for an empty list, otherwise one card
      per course in completed-last order. */
  function Render(courses: seq<Course>): (r: Option<seq<Card>>)
    ensures courses == [] <==> r.None?
    ensures r.Some? ==> |r.value| == |courses|
    ensures r.Some? ==> forall i :: 0 <= i < |courses| ==> r.value[i] == CardOf(CompletedLast(courses)[i])
  {
    if courses == [] then None
    else
      var sorted := CompletedLast(courses);
      Some(seq(|sorted|, i requires 0 <= i < |sorted| => CardOf(sorted[i])))
  }

  /** No card of an unfinished course comes after a card of a finished one. */
  lemma RenderPutsCompletedLast(courses: seq<Course>)
    requires courses != []
    ensures var cards := Render(courses).value;
      forall i, j :: 0 <= i < j < |cards| && cards[i].completed ==> cards[j].completed
  {
    var sorted := CompletedLast(courses);
    var cards := Render(courses).value;
    forall i, j | 0 <= i < j < |cards| && cards[i].completed ensures cards[j].completed {
      assert IsCompleted(sorted[i]);
    }
  }
}
