/** The GitHub records the pages read and the eight-day push histogram shared by
    the home page, the dashboard and the GitHub library. */
module GithubLib {
  import opened Wrappers
  import opened Time

  /** One entry of the public events feed. */
  datatype GhEvent = GhEvent(kind: string, createdAt: Stamp)

  /** One repository of the repositories listing. The counts are optional because
      the cards fall back to 0 for them. */
  datatype GhRepo = GhRepo(
    id: nat,
    name: string,
    description: Option<string>,
    stars: Option<int>,
    forks: Option<int>,
    watchers: Option<int>,
    htmlUrl: string,
    language: Option<string>,
    pushedAt: Stamp,
    updatedAt: Stamp,
    createdAt: Stamp)

  const PushEvent := "PushEvent"

  /** How many calendar days before `today` the event happened (negative for a
      future date): the difference of the two local dates' `Date.UTC` midnights in
      days, which is a whole number, so `Math.floor` changes nothing. */
  function DaysAgo(today: LocalParts, t: Instant): int {
    DayNumber(today) - DayNumber(t.local)
  }

  /** The bucket an event is counted in, if any: only push events with a parsable
      timestamp between 0 and 7 calendar days old are, and `d` days ago is bucket
      `7 - d`. */
  function Slot(e: GhEvent, today: LocalParts): (r: Option<nat>)
    ensures r.Some? <==>
      e.kind == PushEvent && e.createdAt.At? && 0 <= DaysAgo(today, e.createdAt.instant) < 8
    ensures r.Some? ==> r.value == 7 - DaysAgo(today, e.createdAt.instant) && r.value < 8
  {
    if e.kind != PushEvent || !Truthy(e.createdAt) then None
    else match e.createdAt
      case At(t) =>
        var d := DaysAgo(today, t);
        if 0 <= d && d < 8 then Some(7 - d) else None
      case _ => None
  }

  /** The number of events counted in bucket `k`. */
  function CountIn(events: seq<GhEvent>, today: LocalParts, k: nat): (r: nat)
    ensures r <= |events|
  {
    if events == [] then 0
    else
      var last := events[|events| - 1];
      CountIn(events[..|events| - 1], today, k) + (if Slot(last, today) == Some(k) then 1 else 0)
  }

  /** The number of events counted in any bucket: the push events of the window. */
  function InWindow(events: seq<GhEvent>, today: LocalParts): (r: nat)
    ensures r <= |events|
  {
    if events == [] then 0
    else
      var last := events[|events| - 1];
      InWindow(events[..|events| - 1], today) + (if Slot(last, today).Some? then 1 else 0)
  }

  /** The histogram: bucket `k` counts the push events of `7 - k` days ago. */
  function Histogram(events: seq<GhEvent>, today: LocalParts): (r: seq<nat>)
    ensures |r| == 8
    ensures forall k :: 0 <= k < 8 ==> r[k] == CountIn(events, today, k)
  {
    seq(8, k requires 0 <= k < 8 => CountIn(events, today, k))
  }

  /** `build8DaySparkline(events)` as written: an eight-slot array of zeros and one
      pass over the events, incrementing the slot of each counted event. */
  method Build8DaySparkline(events: seq<GhEvent>, now: Instant) returns (buckets: seq<nat>)
    ensures buckets == Histogram(events, now.local)
  {
    var today := now.local;
    var b := new nat[8](_ => 0);
    var i := 0;
    while i < |events|
      invariant 0 <= i <= |events|
      invariant b[..] == Histogram(events[..i], today)
    {
      var ev := events[i];
      assert events[..i + 1][..i] == events[..i];
      var slot := Slot(ev, today);
      if slot.Some? {
        b[slot.value] := b[slot.value] + 1;
      }
      i := i + 1;
    }
    assert events[..i] == events;
    buckets := b[..];
  }

  function Sum(s: seq<nat>): (r: nat) {
    if s == [] then 0 else Sum(s[..|s| - 1]) + s[|s| - 1]
  }

  /** Appending an event adds one to its own bucket and leaves the other seven as
      they were; an event without a bucket (not a push, no or unparsable
      timestamp, dated in the future or eight or more days back) changes nothing. */
  lemma HistogramAppend(events: seq<GhEvent>, e: GhEvent, today: LocalParts)
    ensures var h, h1 := Histogram(events, today), Histogram(events + [e], today);
      match Slot(e, today)
      case None => h1 == h
      case Some(k) => h1 == h[k := h[k] + 1]
  {
    var es := events + [e];
    assert es[..|es| - 1] == events;
    var h, h1 := Histogram(events, today), Histogram(es, today);
    match Slot(e, today)
    case None =>
      assert forall k :: 0 <= k < 8 ==> h1[k] == h[k];
    case Some(k) =>
      assert forall j :: 0 <= j < 8 ==> h1[j] == (if j == k then h[j] + 1 else h[j]);
  }

  /** With no events every bucket is zero. */
  lemma HistogramOfNoEvents(today: LocalParts)
    ensures Histogram([], today) == [0, 0, 0, 0, 0, 0, 0, 0]
  {
  }

  /** The buckets add up to the number of push events in the window, which is at
      most the number of events. */
  lemma {:induction false} HistogramSum(events: seq<GhEvent>, today: LocalParts)
    ensures Sum(Histogram(events, today)) == InWindow(events, today)
    ensures Sum(Histogram(events, today)) <= |events|
  {
    if events != [] {
      var init, e := events[..|events| - 1], events[|events| - 1];
      assert init + [e] == events;
      HistogramSum(init, today);
      HistogramAppend(init, e, today);
      var h := Histogram(init, today);
      match Slot(e, today)
      case None =>
      case Some(k) =>
        SumIncrement(h, k);
    } else {
      SumOfZeros(Histogram(events, today));
    }
  }

  lemma {:induction false} SumOfZeros(s: seq<nat>)
    requires forall i :: 0 <= i < |s| ==> s[i] == 0
    ensures Sum(s) == 0
  {
    if s != [] {
      SumOfZeros(s[..|s| - 1]);
    }
  }

  lemma {:induction false} SumIncrement(s: seq<nat>, k: nat)
    requires k < |s|
    ensures Sum(s[k := s[k] + 1]) == Sum(s) + 1
  {
    var t := s[k := s[k] + 1];
    if k < |s| - 1 {
      assert t[..|t| - 1] == s[..|s| - 1][k := s[k] + 1];
      SumIncrement(s[..|s| - 1], k);
    } else {
      assert t[..|t| - 1] == s[..|s| - 1];
    }
  }

  /** The last bucket holds today's pushes, and bucket `7 - d` those of `d` days ago. */
  lemma {:induction false} BucketOfDay(events: seq<GhEvent>, today: LocalParts, d: nat)
    requires d < 8
    ensures Histogram(events, today)[7 - d]
         == |PushesOn(events, today, d)|
  {
    if events != [] {
      var init, e := events[..|events| - 1], events[|events| - 1];
      BucketOfDay(init, today, d);
      assert PushesOn(events, today, d)
          == PushesOn(init, today, d) + (if IsPushOn(e, today, d) then [e] else []);
    }
  }

  predicate IsPushOn(e: GhEvent, today: LocalParts, d: int) {
    e.kind == PushEvent && e.createdAt.At? && DaysAgo(today, e.createdAt.instant) == d
  }

  /** The push events dated `d` calendar days before `today`, in order. */
  function PushesOn(events: seq<GhEvent>, today: LocalParts, d: int): (r: seq<GhEvent>)
    ensures forall i :: 0 <= i < |r| ==> IsPushOn(r[i], today, d)
  {
    if events == [] then []
    else
      var last := events[|events| - 1];
      PushesOn(events[..|events| - 1], today, d) + (if IsPushOn(last, today, d) then [last] else [])
  }
}
