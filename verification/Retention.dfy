// How long the technical file is kept (src/cra/server/conformity.py,
// `retention_status`; src/cra/server/annex.py, `placed_releases` and
// `latest_release`).
module Retention {
  import opened Ordering
  import opened Calendar
  import opened Deadlines

  // A release with no `releasedAt` is a build nobody has placed on the market.
  datatype Release = Release(version: string, releasedAt: Option<Civil>)

  datatype Basis = SupportPeriod | TenYearsFromPlacing

  datatype Retention = NotYetPlaced | Until(end: Civil, basis: Basis, placed: Civil)

  const FLOOR_MONTHS := 120

  predicate IsPlaced(r: Release) { r.releasedAt.Some? }

  function PlacedReleases(releases: seq<Release>): seq<Release> { Filter(releases, IsPlaced) }

  // List order, not date order: the last placed entry is what the product is on.
  function LatestRelease(releases: seq<Release>): Option<Release> {
    var placed := PlacedReleases(releases);
    if placed == [] then None else Some(placed[|placed| - 1])
  }

  predicate ValidDates(releases: seq<Release>) {
    forall r :: r in releases && IsPlaced(r) ==> r.releasedAt.value.Valid()
  }

  predicate PlacedEarlier(a: Release, b: Release) {
    a.releasedAt.None? || (b.releasedAt.Some? && Instant(a.releasedAt.value) <= Instant(b.releasedAt.value))
  }

  // Date order here: the anchor is the greatest `releasedAt`.
  function Anchor(releases: seq<Release>): Option<Civil> {
    var placed := SortBy(PlacedReleases(releases), PlacedEarlier);
    if placed == [] then None else placed[|placed| - 1].releasedAt
  }

  function RetentionStatus(releases: seq<Release>, supportEnd: Option<Civil>): Result<Retention, CalendarError> {
    match Anchor(releases)
    case None => Ok(NotYetPlaced)
    case Some(anchor) =>
      match AddMonths(anchor, FLOOR_MONTHS)
      case Err(e) => Err(e)
      case Ok(floor) =>
        if supportEnd.Some? && Instant(supportEnd.value) > Instant(floor)
        then Ok(Until(supportEnd.value, SupportPeriod, anchor))
        else Ok(Until(floor, TenYearsFromPlacing, anchor))
  }

  function DayOf(at: Civil): int { Instant(at) / DAY }

  lemma PlacingsAreOrdered()
    ensures Total(PlacedEarlier) && Transitive(PlacedEarlier)
  {
  }

  // The anchor is a placing no other placing comes after.
  lemma AnchorIsLatest(releases: seq<Release>)
    ensures Anchor(releases) == None <==> forall r :: r in releases ==> !IsPlaced(r)
    ensures forall at :: Anchor(releases) == Some(at) ==>
              && (exists r :: r in releases && r.releasedAt == Some(at))
              && forall r :: r in releases && IsPlaced(r) ==> Instant(r.releasedAt.value) <= Instant(at)
  {
    var placed := PlacedReleases(releases);
    FilterMembers(releases, IsPlaced);
    PlacingsAreOrdered();
    LastIsGreatest(placed, PlacedEarlier);
    if placed == [] {
      forall r | r in releases ensures !IsPlaced(r) {
        assert r !in placed;
      }
    } else {
      var last := SortBy(placed, PlacedEarlier)[|placed| - 1];
      assert last in releases && IsPlaced(last);
      forall r | r in releases && IsPlaced(r) ensures Instant(r.releasedAt.value) <= Instant(last.releasedAt.value) {
        assert PlacedEarlier(r, last);
      }
    }
  }

  // The later of ten years and the support period, day by day: nothing placed
  // is kept for less than ten years, and nothing for less than its support.
  lemma RetentionIsTheLater(releases: seq<Release>, supportEnd: Option<Civil>)
    requires ValidDates(releases) && (supportEnd.Some? ==> supportEnd.value.Valid())
    requires RetentionStatus(releases, supportEnd).Ok? && RetentionStatus(releases, supportEnd).value.Until?
    ensures AddMonths(RetentionStatus(releases, supportEnd).value.placed, 120).Ok?
    ensures var status := RetentionStatus(releases, supportEnd).value;
            && Anchor(releases) == Some(status.placed)
            && (status.basis == SupportPeriod <==>
                supportEnd.Some? && Instant(supportEnd.value) > Instant(AddMonths(status.placed, 120).value))
    ensures var end := RetentionStatus(releases, supportEnd).value.end;
            && end.Valid()
            && (supportEnd.Some? ==> Instant(supportEnd.value) <= Instant(end))
            && (forall r :: r in releases && IsPlaced(r) ==>
                  AddMonths(r.releasedAt.value, 120).Ok? &&
                  DayOf(AddMonths(r.releasedAt.value, 120).value) <= DayOf(end))
            && (supportEnd == Some(end)
                || exists r :: r in releases && IsPlaced(r) && AddMonths(r.releasedAt.value, 120) == Ok(end))
  {
    AnchorIsLatest(releases);
    var status := RetentionStatus(releases, supportEnd).value;
    var latest :| latest in releases && latest.releasedAt == Some(status.placed);
    assert IsPlaced(latest);
    AddMonthsIsCalendarExact(status.placed, 120);
    forall r | r in releases && IsPlaced(r)
      ensures AddMonths(r.releasedAt.value, 120).Ok?
      ensures DayOf(AddMonths(r.releasedAt.value, 120).value) <= DayOf(status.end)
    {
      EarlierPlacing(r.releasedAt.value, status.placed, status.end);
    }
  }

  // A period exists exactly when no release was placed after the year 9989.
  lemma RetentionFitsExactly(releases: seq<Release>, supportEnd: Option<Civil>)
    requires ValidDates(releases)
    ensures RetentionStatus(releases, supportEnd).Ok? <==>
            forall r :: r in releases && r.releasedAt.Some? ==> r.releasedAt.value.year <= 9989
  {
    AnchorIsLatest(releases);
    if Anchor(releases).Some? {
      var anchor := Anchor(releases).value;
      var latest :| latest in releases && latest.releasedAt == Some(anchor);
      assert IsPlaced(latest);
      AddMonthsIsCalendarExact(anchor, 120);
      forall r | r in releases && r.releasedAt.Some? ensures r.releasedAt.value.year <= anchor.year {
        assert IsPlaced(r);
        InstantOrder(r.releasedAt.value, anchor);
      }
    }
  }

  lemma EarlierPlacing(at: Civil, anchor: Civil, end: Civil)
    requires at.Valid() && anchor.Valid() && Instant(at) <= Instant(anchor)
    requires AddMonths(anchor, 120).Ok? && Instant(AddMonths(anchor, 120).value) <= Instant(end)
    ensures AddMonths(at, 120).Ok? && DayOf(AddMonths(at, 120).value) <= DayOf(end)
  {
    InstantOrder(at, anchor);
    LaterDate(at, anchor, 120);
  }

  // Placing another version, or supporting the product for longer, never moves
  // the end of retention to an earlier day.
  lemma RetentionNeverShrinks(before: seq<Release>, supportBefore: Option<Civil>,
                              after: seq<Release>, supportAfter: Option<Civil>)
    requires ValidDates(after) && forall r :: r in before ==> r in after
    requires supportAfter.Some? ==> supportAfter.value.Valid()
    requires supportBefore.Some? ==>
               supportAfter.Some? && supportBefore.value.Valid()
               && Instant(supportBefore.value) <= Instant(supportAfter.value)
    requires RetentionStatus(before, supportBefore).Ok? && RetentionStatus(before, supportBefore).value.Until?
    requires RetentionStatus(after, supportAfter).Ok?
    ensures RetentionStatus(after, supportAfter).value.Until?
    ensures DayOf(RetentionStatus(before, supportBefore).value.end)
            <= DayOf(RetentionStatus(after, supportAfter).value.end)
  {
    AnchorIsLatest(before);
    AnchorIsLatest(after);
    RetentionIsTheLater(before, supportBefore);
    RetentionIsTheLater(after, supportAfter);
    var end, later := RetentionStatus(before, supportBefore).value.end, RetentionStatus(after, supportAfter).value.end;
    if supportBefore == Some(end) {
      assert Instant(end) <= Instant(later);
    }
  }

  lemma BothPlaced(a: Release, b: Release)
    requires IsPlaced(a) && IsPlaced(b)
    ensures PlacedReleases([a, b]) == [a, b]
  {
    assert [a, b][..1] == [a] && [a][..0] == [];
    assert Filter([a], IsPlaced) == [a];
  }

  lemma {:induction false} LastKept(releases: seq<Release>) returns (i: nat)
    requires PlacedReleases(releases) != []
    ensures i < |releases| && releases[i].releasedAt.Some?
    ensures PlacedReleases(releases)[|PlacedReleases(releases)| - 1] == releases[i]
    ensures forall j :: i < j < |releases| ==> releases[j].releasedAt.None?
  {
    var n := |releases| - 1;
    if IsPlaced(releases[n]) {
      i := n;
    } else {
      i := LastKept(releases[..n]);
    }
  }

  // The latest release is the last placed one in list order.
  lemma LatestIsPlaced(releases: seq<Release>)
    ensures LatestRelease(releases).Some? <==> exists r :: r in releases && IsPlaced(r)
    ensures LatestRelease(releases).Some? ==>
              exists i :: 0 <= i < |releases| && LatestRelease(releases).value == releases[i] && IsPlaced(releases[i])
                          && forall j :: i < j < |releases| ==> releases[j].releasedAt.None?
  {
    NothingKept(releases, IsPlaced);
    if PlacedReleases(releases) != [] {
      var i := LastKept(releases);
    }
  }

  // The release a file describes is the last one recorded, and its retention
  // runs from that release's placing exactly when nothing was placed later.
  lemma LatestReleaseAnchors(releases: seq<Release>)
    requires ValidDates(releases) && LatestRelease(releases).Some?
    ensures var latest := LatestRelease(releases).value;
            && IsPlaced(latest)
            && (Anchor(releases) == latest.releasedAt <==>
                forall r :: r in releases && IsPlaced(r) ==>
                  Instant(r.releasedAt.value) <= Instant(latest.releasedAt.value))
  {
    LatestIsPlaced(releases);
    AnchorIsLatest(releases);
    var latest := LatestRelease(releases).value;
    var at := Anchor(releases).value;
    var r :| r in releases && r.releasedAt == Some(at);
    assert IsPlaced(r);
    InstantOrder(at, latest.releasedAt.value);
  }

  // So a back-dated release recorded after a later placing parts the two.
  lemma LatestReleaseNeedNotAnchor(first: Civil, second: Civil)
    requires first.Valid() && second.Valid() && Instant(second) < Instant(first)
    ensures var releases := [Release("2.0", Some(first)), Release("1.1", Some(second))];
            LatestRelease(releases) == Some(releases[1]) && Anchor(releases) == Some(first)
            && Anchor(releases) != LatestRelease(releases).value.releasedAt
  {
    var a, b := Release("2.0", Some(first)), Release("1.1", Some(second));
    BothPlaced(a, b);
    AnchorIsLatest([a, b]);
    LatestReleaseAnchors([a, b]);
    assert IsPlaced(a) && a in [a, b];
  }
}
