// One candidate over any run of scans, dismissals, confirmations and sweeps.
module AdvisoryRuns {
  import opened Ordering
  import opened Matching
  import opened Advisories

  function RowAfter(r: Candidate, es: seq<Step>, rule: Rule, n: nat): Candidate
    requires n <= |es|
  {
    if n == 0 then r else StepRow(RowAfter(r, es, rule, n - 1), es[n - 1], rule)
  }

  // ---- what never changes back ----

  lemma {:induction false} Latches(r: Candidate, es: seq<Step>, rule: Rule, i: nat, j: nat)
    requires i <= j <= |es|
    ensures var a, b := RowAfter(r, es, rule, i), RowAfter(r, es, rule, j);
            && (a.status.Confirmed? ==> b.status.Confirmed?)
            && (a.exploited ==> b.exploited)
            && (a.prob.Some? ==> b.prob.Some?)
            && b.key == a.key && b.firstSeen == a.firstSeen
    decreases j
  {
    if i < j {
      Latches(r, es, rule, i, j - 1);
    }
  }

  // ---- what re-opens a dismissal ----

  predicate KevReopen(r: Candidate, es: seq<Step>, rule: Rule, i: nat)
    requires i < |es|
  {
    var row := RowAfter(r, es, rule, i);
    es[i].Scanned? && row.status.Dismissed? && BecomesExploited(row, es[i].finding)
  }

  predicate EpssReopen(r: Candidate, es: seq<Step>, rule: Rule, i: nat)
    requires i < |es|
  {
    es[i].Scanned? && ReopensOnEpss(RowAfter(r, es, rule, i), es[i].finding, rule)
  }

  predicate DismissedAt(r: Candidate, es: seq<Step>, rule: Rule, i: nat)
    requires i < |es|
  {
    es[i].DismissStep? && !RowAfter(r, es, rule, i).status.Confirmed?
  }

  // A pinned score is the score the row held at its latest dismissal.
  lemma {:induction false} PinIsLatestDismissal(r: Candidate, es: seq<Step>, rule: Rule, n: nat) returns (j: nat)
    requires r.probAt.None? && n <= |es| && RowAfter(r, es, rule, n).probAt.Some?
    ensures j < n && DismissedAt(r, es, rule, j)
    ensures forall m :: j < m < n ==> !DismissedAt(r, es, rule, m)
    ensures RowAfter(r, es, rule, j).prob == RowAfter(r, es, rule, n).probAt
  {
    if DismissedAt(r, es, rule, n - 1) {
      j := n - 1;
    } else {
      j := PinIsLatestDismissal(r, es, rule, n - 1);
    }
  }

  // A dismissed candidate becomes open only when KEV lists it for the first
  // time, or when its score has risen by the rule's factor and step over the
  // score it held at its latest dismissal.
  lemma OnlyNewsReopens(r: Candidate, es: seq<Step>, rule: Rule, n: nat) returns (j: nat)
    requires r.probAt.None? && n < |es|
    requires RowAfter(r, es, rule, n).status.Dismissed? && RowAfter(r, es, rule, n + 1).status.Open?
    ensures es[n].Scanned?
    ensures KevReopen(r, es, rule, n) ==> es[n].finding.exploited && forall i :: 0 <= i <= n ==>
            !RowAfter(r, es, rule, i).exploited
    ensures !KevReopen(r, es, rule, n) ==>
              && EpssReopen(r, es, rule, n) && j < n && DismissedAt(r, es, rule, j)
              && (forall m :: j < m < n ==> !DismissedAt(r, es, rule, m))
              && RowAfter(r, es, rule, j).prob.Some? && es[n].finding.prob.Some?
              && es[n].finding.prob.value >= RowAfter(r, es, rule, j).prob.value * rule.factor
              && es[n].finding.prob.value - RowAfter(r, es, rule, j).prob.value >= rule.minRise
  {
    j := 0;
    if KevReopen(r, es, rule, n) {
      forall i | 0 <= i <= n ensures !RowAfter(r, es, rule, i).exploited {
        Latches(r, es, rule, i, n);
      }
    } else {
      j := PinIsLatestDismissal(r, es, rule, n);
    }
  }

  // In any run a scan re-opens a dismissed candidate exactly when CISA lists it
  // now and had not before, or when its score has risen over its pin; either way
  // nobody counts as told, so a listing is owed a notice.
  lemma ScanReopensExactly(r: Candidate, es: seq<Step>, rule: Rule, n: nat)
    requires n < |es| && es[n].Scanned? && RowAfter(r, es, rule, n).status == Dismissed
    ensures var row, next, f := RowAfter(r, es, rule, n), RowAfter(r, es, rule, n + 1), es[n].finding;
            && (next.status == Open <==>
                || (f.exploited && !row.exploited)
                || (f.prob.Some? && row.probAt.Some? && f.prob.value >= row.probAt.value * rule.factor
                    && f.prob.value >= row.probAt.value + rule.minRise))
            && (next.status == Open || next == row.(prob := next.prob, pct := next.pct, provenance := next.provenance))
            && (next.status == Open ==> next.notifiedAt == None)
            && (f.exploited && !row.exploited ==> AwaitsNotice(next))
  {
    RefreshExactly(RowAfter(r, es, rule, n), es[n].finding, es[n].scan, rule);
  }

  // ---- how often ----

  function EpssReopens(r: Candidate, es: seq<Step>, rule: Rule, n: nat): nat
    requires n <= |es|
  {
    if n == 0 then 0 else EpssReopens(r, es, rule, n - 1) + if EpssReopen(r, es, rule, n - 1) then 1 else 0
  }

  function KevListings(r: Candidate, es: seq<Step>, rule: Rule, n: nat): nat
    requires n <= |es|
  {
    if n == 0 then 0
    else KevListings(r, es, rule, n - 1)
         + if es[n - 1].Scanned? && BecomesExploited(RowAfter(r, es, rule, n - 1), es[n - 1].finding) then 1 else 0
  }

  // KEV lists a candidate at most once, so it re-opens it at most once.
  lemma {:induction false} ListedOnce(r: Candidate, es: seq<Step>, rule: Rule, n: nat)
    requires n <= |es|
    ensures KevListings(r, es, rule, n) + (if r.exploited then 1 else 0) == if RowAfter(r, es, rule, n).exploited
            then 1 else 0
  {
    if n > 0 {
      ListedOnce(r, es, rule, n - 1);
    }
  }

  ghost predicate Rising(row: Candidate, f: Finding) {
    f.prob.Some? ==> 0.0 <= f.prob.value <= 1.0 && (row.prob.Some? ==> row.prob.value <= f.prob.value)
  }

  // Step i of a run brings no lower score than its row holds.
  ghost predicate RisesAt(r: Candidate, es: seq<Step>, rule: Rule, i: nat)
    requires i < |es|
  {
    es[i].Scanned? ==> Rising(RowAfter(r, es, rule, i), es[i].finding)
  }

  // Scores are probabilities, and no scan brings a lower one.
  ghost predicate NeverFalls(r: Candidate, es: seq<Step>, rule: Rule) {
    && (r.prob.Some? ==> 0.0 <= r.prob.value <= 1.0)
    && forall i :: 0 <= i < |es| ==> RisesAt(r, es, rule, i)
  }

  // The least score a row can hold after k re-openings.
  function Floor(rule: Rule, k: nat): real {
    if k == 0 then 0.0 else if k == 1 then rule.minRise else rule.factor * Floor(rule, k - 1)
  }

  ghost predicate AboveFloor(row: Candidate, rule: Rule, k: nat) {
    && (row.prob.Some? ==> 0.0 <= row.prob.value <= 1.0)
    && (row.status.Dismissed? && row.probAt.Some? ==> row.prob.Some? && row.probAt.value <= row.prob.value)
    && (k > 0 ==> row.prob.Some? && row.prob.value >= Floor(rule, k))
    && (k > 0 && row.status.Dismissed? ==> row.probAt.Some? && row.probAt.value >= Floor(rule, k))
    && (row.status.Dismissed? && row.probAt.Some? ==> row.probAt.value >= 0.0)
  }

  lemma FloorStep(rule: Rule, k: nat, was: real, p: real)
    requires rule.factor >= 0.0 && was >= 0.0 && (k > 0 ==> was >= Floor(rule, k))
    requires p >= was * rule.factor && p - was >= rule.minRise
    ensures p >= Floor(rule, k + 1)
  {
    if k > 0 {
      assert Floor(rule, k + 1) == rule.factor * Floor(rule, k);
      assert rule.factor * Floor(rule, k) <= rule.factor * was;
    }
  }

  lemma ScanKeepsFloor(row: Candidate, f: Finding, s: Scan, rule: Rule, k: nat)
    requires AboveFloor(row, rule, k) && Rising(row, f) && rule.factor >= 0.0
    ensures !ReopensOnEpss(row, f, rule) ==> AboveFloor(Refreshed(row, f, s, rule), rule, k)
    ensures ReopensOnEpss(row, f, rule) ==> AboveFloor(Refreshed(row, f, s, rule), rule, k + 1)
  {
    if ReopensOnEpss(row, f, rule) {
      FloorStep(rule, k, row.probAt.value, f.prob.value);
    }
  }

  lemma StepKeepsFloor(row: Candidate, e: Step, rule: Rule, k: nat)
    requires AboveFloor(row, rule, k) && rule.factor >= 0.0 && (e.Scanned? ==> Rising(row, e.finding))
    ensures AboveFloor(StepRow(row, e, rule), rule,
                       k + if e.Scanned? && ReopensOnEpss(row, e.finding, rule) then 1 else 0)
  {
    if e.Scanned? {
      ScanKeepsFloor(row, e.finding, e.scan, rule, k);
    }
  }

  lemma {:induction false} ScoreClimbs(r: Candidate, es: seq<Step>, rule: Rule, n: nat)
    requires r.status.Open? && NeverFalls(r, es, rule) && rule.factor >= 0.0 && n <= |es|
    ensures AboveFloor(RowAfter(r, es, rule, n), rule, EpssReopens(r, es, rule, n))
  {
    if n > 0 {
      ScoreClimbs(r, es, rule, n - 1);
      assert RisesAt(r, es, rule, n - 1);
      StepKeepsFloor(RowAfter(r, es, rule, n - 1), es[n - 1], rule, EpssReopens(r, es, rule, n - 1));
    }
  }

  // While scores never fall, a rule re-opens a candidate k times only if its
  // k-th floor is still a probability.
  lemma ReopensBoundedByFloor(r: Candidate, es: seq<Step>, rule: Rule, n: nat)
    requires r.status.Open? && NeverFalls(r, es, rule) && rule.factor >= 0.0 && n <= |es|
    ensures EpssReopens(r, es, rule, n) > 0 ==> Floor(rule, EpssReopens(r, es, rule, n)) <= 1.0
  {
    ScoreClimbs(r, es, rule, n);
  }

  lemma {:induction false} DefaultFloor(k: nat)
    requires k >= 6
    ensures Floor(DEFAULT_RULE, k) > 1.0
  {
    if k > 6 {
      DefaultFloor(k - 1);
    } else {
      assert Floor(DEFAULT_RULE, 3) == 0.2;
      assert Floor(DEFAULT_RULE, 6) == 1.6;
    }
  }

  // The default rule re-opens a candidate on EPSS at most five times.
  lemma AtMostFiveReopens(r: Candidate, es: seq<Step>, n: nat)
    requires r.status.Open? && NeverFalls(r, es, DEFAULT_RULE) && n <= |es|
    ensures EpssReopens(r, es, DEFAULT_RULE, n) <= 5
  {
    ReopensBoundedByFloor(r, es, DEFAULT_RULE, n);
    if EpssReopens(r, es, DEFAULT_RULE, n) >= 6 {
      DefaultFloor(EpssReopens(r, es, DEFAULT_RULE, n));
    }
  }

  // ---- notices ----

  predicate NoticeAt(r: Candidate, es: seq<Step>, rule: Rule, i: nat)
    requires i < |es|
  {
    es[i].NotifyStep? && AwaitsNotice(RowAfter(r, es, rule, i))
  }

  function Notices(r: Candidate, es: seq<Step>, rule: Rule, n: nat): nat
    requires n <= |es|
  {
    if n == 0 then 0 else Notices(r, es, rule, n - 1) + if NoticeAt(r, es, rule, n - 1) then 1 else 0
  }

  lemma {:induction false} NoticesFollowReopens(r: Candidate, es: seq<Step>, rule: Rule, n: nat)
    requires r.notifiedAt.None? && n <= |es|
    ensures var row := RowAfter(r, es, rule, n);
            && Notices(r, es, rule, n) <= EpssReopens(r, es, rule, n) + (if row.notifiedAt.Some? then 1 else 0)
            && (!row.exploited ==> Notices(r, es, rule, n) == 0 && row.notifiedAt.None?)
  {
    if n > 0 {
      NoticesFollowReopens(r, es, rule, n - 1);
    }
  }

  // Hence a candidate is notified in at most six sweeps.
  lemma AtMostSixNotices(r: Candidate, es: seq<Step>, n: nat)
    requires r.status.Open? && r.notifiedAt.None? && NeverFalls(r, es, DEFAULT_RULE) && n <= |es|
    ensures Notices(r, es, DEFAULT_RULE, n) <= 6
  {
    NoticesFollowReopens(r, es, DEFAULT_RULE, n);
    AtMostFiveReopens(r, es, n);
  }

  // Between two notices something reset the stamp, and it was an EPSS re-opening.
  lemma {:induction false} ResetBetweenNotices(r: Candidate, es: seq<Step>, rule: Rule, i: nat, j: nat) returns (m: nat)
    requires i < j <= |es| && NoticeAt(r, es, rule, i)
    requires RowAfter(r, es, rule, j).notifiedAt.None?
    ensures i < m < j && EpssReopen(r, es, rule, m)
    decreases j
  {
    Latches(r, es, rule, i, j - 1);
    if RowAfter(r, es, rule, j - 1).notifiedAt.None? && i < j - 1 {
      m := ResetBetweenNotices(r, es, rule, i, j - 1);
    } else {
      m := j - 1;
    }
  }

  // ---- both bounds are reached ----

  // Dismiss, re-open at score p, notify.
  function Cycle(f: Finding, s: Scan, p: real): seq<Step> {
    [DismissStep, Scanned(f.(prob := Some(p)), s), NotifyStep(s.at)]
  }

  lemma {:induction false} AfterConcat(r: Candidate, a: seq<Step>, b: seq<Step>, rule: Rule, n: nat)
    requires n <= |b|
    ensures RowAfter(r, a + b, rule, |a| + n) == RowAfter(RowAfter(r, a, rule, |a|), b, rule, n)
    ensures EpssReopens(r, a + b, rule, |a| + n)
            == EpssReopens(r, a, rule, |a|) + EpssReopens(RowAfter(r, a, rule, |a|), b, rule, n)
    ensures Notices(r, a + b, rule, |a| + n) == Notices(r, a, rule, |a|)
            + Notices(RowAfter(r, a, rule, |a|), b, rule, n)
  {
    if n > 0 {
      AfterConcat(r, a, b, rule, n - 1);
    } else {
      PrefixAgrees(r, a, b, rule, |a|);
    }
  }

  lemma {:induction false} PrefixAgrees(r: Candidate, a: seq<Step>, b: seq<Step>, rule: Rule, n: nat)
    requires n <= |a|
    ensures RowAfter(r, a + b, rule, n) == RowAfter(r, a, rule, n)
    ensures EpssReopens(r, a + b, rule, n) == EpssReopens(r, a, rule, n)
    ensures Notices(r, a + b, rule, n) == Notices(r, a, rule, n)
  {
    if n > 0 {
      PrefixAgrees(r, a, b, rule, n - 1);
    }
  }

  ghost predicate OpenAndTold(row: Candidate, p: real) {
    row.status.Open? && row.exploited && row.notifiedAt.Some? && row.prob == Some(p)
  }

  lemma CycleReopens(row: Candidate, f: Finding, s: Scan, was: real, p: real)
    requires OpenAndTold(row, was) && 0.0 <= was && p >= was * 2.0 && p - was >= 0.05 && p <= 1.0
    ensures var es := Cycle(f, s, p);
            && NeverFalls(row, es, DEFAULT_RULE)
            && OpenAndTold(RowAfter(row, es, DEFAULT_RULE, 3), p)
            && EpssReopens(row, es, DEFAULT_RULE, 3) == 1 && Notices(row, es, DEFAULT_RULE, 3) == 1
  {
    var es := Cycle(f, s, p);
    var r1 := row.(status := Dismissed, probAt := row.prob, pctAt := row.pct);
    assert RowAfter(row, es, DEFAULT_RULE, 1) == r1;
    assert RowAfter(row, es, DEFAULT_RULE, 2) == Refreshed(r1, es[1].finding, s, DEFAULT_RULE);
    assert RowAfter(row, es, DEFAULT_RULE, 3) == StepRow(RowAfter(row, es, DEFAULT_RULE, 2), es[2], DEFAULT_RULE);
    assert EpssReopens(row, es, DEFAULT_RULE, 1) == 0;
    assert EpssReopens(row, es, DEFAULT_RULE, 2) == 1;
    assert Notices(row, es, DEFAULT_RULE, 1) == 0;
    assert Notices(row, es, DEFAULT_RULE, 2) == 0;
  }

  lemma RisesInFront(r: Candidate, a: seq<Step>, b: seq<Step>, rule: Rule, i: nat)
    requires i < |a| && RisesAt(r, a, rule, i)
    ensures RisesAt(r, a + b, rule, i)
  {
    PrefixAgrees(r, a, b, rule, i);
  }

  lemma RisesInBack(r: Candidate, a: seq<Step>, b: seq<Step>, rule: Rule, i: nat)
    requires i < |b| && RisesAt(RowAfter(r, a, rule, |a|), b, rule, i)
    ensures RisesAt(r, a + b, rule, |a| + i)
  {
    AfterConcat(r, a, b, rule, i);
  }

  lemma NeverFallsConcat(r: Candidate, a: seq<Step>, b: seq<Step>, rule: Rule)
    requires NeverFalls(r, a, rule) && NeverFalls(RowAfter(r, a, rule, |a|), b, rule)
    ensures NeverFalls(r, a + b, rule)
  {
    forall i | 0 <= i < |a + b| ensures RisesAt(r, a + b, rule, i) {
      if i < |a| {
        RisesInFront(r, a, b, rule, i);
      } else {
        RisesInBack(r, a, b, rule, i - |a|);
      }
    }
  }

  lemma ExtendByCycle(r: Candidate, es: seq<Step>, f: Finding, s: Scan, was: real, p: real, k: nat)
    returns (longer: seq<Step>)
    requires NeverFalls(r, es, DEFAULT_RULE) && OpenAndTold(RowAfter(r, es, DEFAULT_RULE, |es|), was)
    requires EpssReopens(r, es, DEFAULT_RULE, |es|) == k && Notices(r, es, DEFAULT_RULE, |es|) == k + 1
    requires 0.0 <= was && p >= was * 2.0 && p - was >= 0.05 && p <= 1.0
    ensures NeverFalls(r, longer, DEFAULT_RULE) && OpenAndTold(RowAfter(r, longer, DEFAULT_RULE, |longer|), p)
    ensures EpssReopens(r, longer, DEFAULT_RULE, |longer|) == k + 1
            && Notices(r, longer, DEFAULT_RULE, |longer|) == k + 2
  {
    var row := RowAfter(r, es, DEFAULT_RULE, |es|);
    CycleReopens(row, f, s, was, p);
    AfterConcat(r, es, Cycle(f, s, p), DEFAULT_RULE, 3);
    NeverFallsConcat(r, es, Cycle(f, s, p), DEFAULT_RULE);
    longer := es + Cycle(f, s, p);
  }

  // A score climbing 0, 0.05, 0.1, 0.2, 0.4, 0.8 re-opens five times and is
  // notified six: the bounds cannot be improved.
  lemma BoundsAreReached(f: Finding, s: Scan) returns (r: Candidate, es: seq<Step>)
    requires f.exploited && f.prob == Some(0.0)
    ensures r == Fresh(s, f) && NeverFalls(r, es, DEFAULT_RULE)
    ensures EpssReopens(r, es, DEFAULT_RULE, |es|) == 5 && Notices(r, es, DEFAULT_RULE, |es|) == 6
  {
    r := Fresh(s, f);
    es := [NotifyStep(s.at)];
    assert RowAfter(r, es, DEFAULT_RULE, 1) == StepRow(RowAfter(r, es, DEFAULT_RULE, 0), es[0], DEFAULT_RULE);
    es := ExtendByCycle(r, es, f, s, 0.0, 0.05, 0);
    es := ExtendByCycle(r, es, f, s, 0.05, 0.1, 1);
    es := ExtendByCycle(r, es, f, s, 0.1, 0.2, 2);
    es := ExtendByCycle(r, es, f, s, 0.2, 0.4, 3);
    es := ExtendByCycle(r, es, f, s, 0.4, 0.8, 4);
  }
}
