// Whole runs of the alert sweeper: what every sequence of committed passes
// keeps, whatever the sends do.
module DeadlineRuns {
  import opened Ordering
  import opened Calendar
  import opened Deadlines
  import opened Escalation
  import opened DeadlineSweeper

  // The rows about one clock grow by one row per recipient, all of one kind,
  // when an alert is attempted, and not at all otherwise.
  ghost predicate Extends(before: seq<Row>, after: seq<Row>, kind: Option<string>, users: seq<Id>) {
    match kind
    case None => after == before
    case Some(k) =>
      && |after| == |before| + |users| && after[..|before|] == before
      && forall i :: |before| <= i < |after| ==>
           after[i].kind == k && after[i].recipient == users[i - |before|] && after[i].status != Unsent
  }

  // ---- one pass, seen from one clock ----

  lemma OutcomeIsAbout(d: Clock, kind: string, user: Id, outcome: SendOutcome, now: int, c: Clock)
    requires d.SupportClock? ==> IsSupportKind(kind)
    ensures !SameSubject(c, d) ==> !About(OutcomeRow(d, kind, user, outcome, now), c)
    ensures About(OutcomeRow(d, kind, user, outcome, now), d)
  {
  }

  lemma RowsAboutAppend(log: seq<Row>, row: Row, c: Clock)
    ensures RowsAbout(log + [row], c) == if About(row, c) then RowsAbout(log, c) + [row] else RowsAbout(log, c)
  {
    assert (log + [row])[..|log|] == log;
  }

  lemma ExtendsByOne(before: seq<Row>, after: seq<Row>, kind: string, users: seq<Id>, row: Row)
    requires users != [] && Extends(before, after, Some(kind), users[..|users| - 1])
    requires row.kind == kind && row.recipient == users[|users| - 1] && row.status != Unsent
    ensures Extends(before, after + [row], Some(kind), users)
  {
  }

  lemma {:induction false} FanOutRows(log: seq<Row>, d: Clock, kind: string, users: seq<Id>, w: World, c: Clock)
    requires d.SupportClock? ==> IsSupportKind(kind)
    ensures !SameSubject(c, d) ==> RowsAbout(FannedOut(log, d, kind, users, w), c) == RowsAbout(log, c)
    ensures c == d ==> Extends(RowsAbout(log, c), RowsAbout(FannedOut(log, d, kind, users, w), c), Some(kind), users)
  {
    if users != [] {
      var n := |users| - 1;
      FanOutRows(log, d, kind, users[..n], w, c);
      var before := FannedOut(log, d, kind, users[..n], w);
      var outcome := w.send(|before|);
      var row := OutcomeRow(d, kind, users[n], outcome, w.now);
      OutcomeIsAbout(d, kind, users[n], outcome, w.now, c);
      RowsAboutAppend(before, row, c);
      if c == d {
        ExtendsByOne(RowsAbout(log, c), RowsAbout(before, c), kind, users, row);
      }
    }
  }

  lemma AttemptedLabel(log: seq<Row>, c: Clock, w: World)
    requires Attempted(log, c, w).Some?
    ensures exists k ::
              0 <= k < |c.Ladder()| && Standing(c, w.now) == Some(k)
              && Attempted(log, c, w).value == c.Label(c.Ladder()[k])
    ensures Attempted(log, c, w).value !in Settled(log, c)
    ensures c.SupportClock? ==> IsSupportKind(Attempted(log, c, w).value)
  {
    var k := Standing(c, w.now).value;
    LabelsNameRungs(c.Ladder()[k], Passed);
    assert 0 <= k < |c.Ladder()| && Standing(c, w.now) == Some(k)
      && Attempted(log, c, w).value == c.Label(c.Ladder()[k]);
  }

  lemma SweptClockRows(log: seq<Row>, d: Clock, w: World, c: Clock)
    ensures !SameSubject(c, d) ==> RowsAbout(SweptClock(log, d, w), c) == RowsAbout(log, c)
    ensures c == d ==> Extends(RowsAbout(log, c), RowsAbout(SweptClock(log, d, w), c), Attempted(log, c, w),
            w.recipients(c.product))
  {
    var kind := Attempted(log, d, w);
    if kind.Some? {
      AttemptedLabel(log, d, w);
      FanOutRows(log, d, kind.value, w.recipients(d.product), w, c);
    }
  }

  lemma {:induction false} SweptElsewhere(log: seq<Row>, clocks: seq<Clock>, w: World, c: Clock)
    requires forall d :: d in clocks ==> !SameSubject(c, d)
    ensures RowsAbout(Swept(log, clocks, w), c) == RowsAbout(log, c)
  {
    if clocks != [] {
      var n := |clocks| - 1;
      SweptElsewhere(log, clocks[..n], w, c);
      SweptClockRows(Swept(log, clocks[..n], w), clocks[n], w, c);
    }
  }

  lemma {:induction false} SweptOwn(log: seq<Row>, clocks: seq<Clock>, w: World, c: Clock)
    requires Distinct(clocks) && c in clocks
    ensures Extends(RowsAbout(log, c), RowsAbout(Swept(log, clocks, w), c), Attempted(log, c, w),
            w.recipients(c.product))
  {
    var n := |clocks| - 1;
    if clocks[n] == c {
      SweptElsewhere(log, clocks[..n], w, c);
    } else {
      SweptOwn(log, clocks[..n], w, c);
    }
    SweptClockRows(Swept(log, clocks[..n], w), clocks[n], w, c);
  }

  // A dry run plans exactly the clock and rung pairs a wet run attempts.
  lemma {:induction false} DryRunIsFaithful(log: seq<Row>, clocks: seq<Clock>, w: World)
    requires Distinct(clocks)
    ensures Plan(log, clocks, w) == Attempts(log, clocks, w)
  {
    if clocks != [] {
      var n := |clocks| - 1;
      DryRunIsFaithful(log, clocks[..n], w);
      SweptElsewhere(log, clocks[..n], w, clocks[n]);
    }
  }

  // ---- runs ----

  datatype Sweep = Sweep(clocks: seq<Clock>, world: World)

  function LogAfter(log: seq<Row>, run: seq<Sweep>, n: nat): seq<Row>
    requires n <= |run|
  {
    if n == 0 then log else Swept(LogAfter(log, run, n - 1), run[n - 1].clocks, run[n - 1].world)
  }

  // The clock may come and go, but its deadline is the same whenever it is seen.
  ghost predicate Run(run: seq<Sweep>, c: Clock) {
    && (forall i :: 0 <= i < |run| ==> Distinct(run[i].clocks))
    && (forall i, j :: 0 <= i < j < |run| ==> run[i].world.now <= run[j].world.now)
    && (forall i, d :: 0 <= i < |run| && d in run[i].clocks && SameSubject(c, d) ==> d == c)
  }

  function AttemptAt(log: seq<Row>, run: seq<Sweep>, i: nat, c: Clock): Option<string>
    requires i < |run|
  {
    if c in run[i].clocks then Attempted(LogAfter(log, run, i), c, run[i].world) else None
  }

  function RowsAt(log: seq<Row>, run: seq<Sweep>, i: nat, c: Clock): seq<Row>
    requires i <= |run|
  {
    RowsAbout(LogAfter(log, run, i), c)
  }

  lemma StepExtends(log: seq<Row>, run: seq<Sweep>, i: nat, c: Clock)
    requires Run(run, c) && i < |run|
    ensures Extends(RowsAt(log, run, i, c), RowsAt(log, run, i + 1, c), AttemptAt(log, run, i, c),
                    run[i].world.recipients(c.product))
  {
    if c in run[i].clocks {
      SweptOwn(LogAfter(log, run, i), run[i].clocks, run[i].world, c);
    } else {
      SweptElsewhere(LogAfter(log, run, i), run[i].clocks, run[i].world, c);
    }
  }

  // ---- a run as one clock sees it ----

  // The rows about the clock before each pass and after the last, with what each
  // pass attempted and for whom.
  datatype History = History(rows: seq<seq<Row>>, attempts: seq<Option<string>>, users: seq<seq<Id>>)

  ghost predicate Chronicle(h: History) {
    && |h.rows| == |h.attempts| + 1 && |h.users| == |h.attempts|
    && forall i, j :: 0 <= i < j < |h.rows| && j == i + 1 ==> Extends(h.rows[i], h.rows[j], h.attempts[i], h.users[i])
  }

  function HistoryOf(log: seq<Row>, run: seq<Sweep>, c: Clock): (h: History)
    ensures |h.rows| == |run| + 1 && |h.attempts| == |h.users| == |run|
  {
    History(seq(|run| + 1, i requires 0 <= i <= |run| => RowsAt(log, run, i, c)),
            seq(|run|, i requires 0 <= i < |run| => AttemptAt(log, run, i, c)),
            seq(|run|, i requires 0 <= i < |run| => run[i].world.recipients(c.product)))
  }

  lemma RunsAreChronicles(log: seq<Row>, run: seq<Sweep>, c: Clock)
    requires Run(run, c)
    ensures Chronicle(HistoryOf(log, run, c))
  {
    var h := HistoryOf(log, run, c);
    forall i, j | 0 <= i < j < |h.rows| && j == i + 1
      ensures Extends(h.rows[i], h.rows[j], h.attempts[i], h.users[i])
    {
      StepExtends(log, run, i, c);
    }
  }

  lemma {:induction false} RowsKept(h: History, i: nat, j: nat)
    requires Chronicle(h) && i <= j < |h.rows|
    ensures h.rows[i] <= h.rows[j]
    decreases j
  {
    if i < j {
      RowsKept(h, i, j - 1);
      assert Extends(h.rows[j - 1], h.rows[j], h.attempts[j - 1], h.users[j - 1]);
    }
  }

  lemma PrefixSettles(a: seq<Row>, b: seq<Row>)
    requires a <= b
    ensures SettledKinds(a) <= SettledKinds(b)
  {
    forall row | row in a ensures row in b {
      var k :| 0 <= k < |a| && a[k] == row;
      assert b[k] == row;
    }
  }

  // Some row the i-th pass added settles its label.
  predicate SettlesAt(h: History, i: nat)
    requires i + 1 < |h.rows|
  {
    exists row :: row in h.rows[i + 1] && Settles(row) && row in Added(h.rows[i], h.rows[i + 1])
  }

  function Added(before: seq<Row>, after: seq<Row>): seq<Row> {
    if |before| <= |after| then after[|before|..] else []
  }

  lemma StepSettles(h: History, i: nat)
    requires Chronicle(h) && i < |h.attempts|
    ensures var before, after := SettledKinds(h.rows[i]), SettledKinds(h.rows[i + 1]);
            && before <= after
            && (SettlesAt(h, i) ==> h.attempts[i].Some? && after == before + {h.attempts[i].value})
            && (!SettlesAt(h, i) ==> after == before)
  {
    var a, b := h.rows[i], h.rows[i + 1];
    assert Extends(a, b, h.attempts[i], h.users[i]);
    PrefixSettles(a, b);
    assert b == a + Added(a, b);
    forall row | row in Added(a, b) ensures row in b && h.attempts[i] == Some(row.kind) {
      var k :| 0 <= k < |Added(a, b)| && Added(a, b)[k] == row;
      assert b[|a| + k] == row;
    }
  }

  // A label nobody tried is not settled.
  lemma {:induction false} UntriedIsUnsettled(h: History, name: string, n: nat)
    requires Chronicle(h) && n < |h.rows| && name !in SettledKinds(h.rows[0])
    requires forall j :: 0 <= j < n ==> h.attempts[j] != Some(name)
    ensures name !in SettledKinds(h.rows[n])
  {
    if n > 0 {
      UntriedIsUnsettled(h, name, n - 1);
      StepSettles(h, n - 1);
    }
  }

  lemma SettledGrows(log: seq<Row>, run: seq<Sweep>, i: nat, j: nat, c: Clock)
    requires Run(run, c) && i <= j <= |run|
    ensures Settled(LogAfter(log, run, i), c) <= Settled(LogAfter(log, run, j), c)
  {
    var h := HistoryOf(log, run, c);
    RunsAreChronicles(log, run, c);
    RowsKept(h, i, j);
    PrefixSettles(h.rows[i], h.rows[j]);
  }

  // Alerts never become less urgent, and a settled rung is never tried again.
  lemma UrgencyNeverRegresses(log: seq<Row>, run: seq<Sweep>, i: nat, j: nat, c: Clock)
    requires Run(run, c) && i <= j < |run|
    requires AttemptAt(log, run, i, c).Some? && AttemptAt(log, run, j, c).Some?
    ensures Standing(c, run[i].world.now).Some? && Standing(c, run[j].world.now).Some?
    ensures Standing(c, run[i].world.now).value <= Standing(c, run[j].world.now).value
    ensures AttemptAt(log, run, i, c).value == c.Label(c.Ladder()[Standing(c, run[i].world.now).value])
    ensures AttemptAt(log, run, j, c).value !in Settled(LogAfter(log, run, i), c)
  {
    AttemptedLabel(LogAfter(log, run, i), c, run[i].world);
    AttemptedLabel(LogAfter(log, run, j), c, run[j].world);
    StandingNeverRegresses(c, run[i].world.now, run[j].world.now);
    SettledGrows(log, run, i, j, c);
  }

  // ---- how many passes can settle anything ----

  function LabelsOf(c: Clock, rungs: seq<Rung>): (r: set<string>)
    ensures |r| <= |rungs|
    ensures forall rung :: rung in rungs ==> c.Label(rung) in r
  {
    if rungs == [] then {} else LabelsOf(c, rungs[1..]) + {c.Label(rungs[0])}
  }

  function Labels(c: Clock): set<string> { LabelsOf(c, c.Ladder()) }

  // Among the first n passes, those that settled something.
  function SettlingPasses(h: History, n: nat): nat
    requires n < |h.rows|
  {
    if n == 0 then 0 else SettlingPasses(h, n - 1) + if SettlesAt(h, n - 1) then 1 else 0
  }

  function SettlingSweeps(log: seq<Row>, run: seq<Sweep>, n: nat, c: Clock): nat
    requires n <= |run|
  {
    SettlingPasses(HistoryOf(log, run, c), n)
  }

  // Attempts are labels, and never settled ones.
  ghost predicate Fresh(h: History, labels: set<string>) {
    && |h.rows| == |h.attempts| + 1
    && forall i :: 0 <= i < |h.attempts| && h.attempts[i].Some? ==>
         h.attempts[i].value in labels && h.attempts[i].value !in SettledKinds(h.rows[i])
  }

  lemma RunsAreFresh(log: seq<Row>, run: seq<Sweep>, c: Clock)
    ensures Fresh(HistoryOf(log, run, c), Labels(c))
  {
    var h := HistoryOf(log, run, c);
    forall i | 0 <= i < |run| && h.attempts[i].Some?
      ensures h.attempts[i].value in Labels(c) && h.attempts[i].value !in SettledKinds(h.rows[i])
    {
      AttemptedLabel(LogAfter(log, run, i), c, run[i].world);
    }
  }

  lemma OneLarger<T>(before: set<T>, after: set<T>, all: set<T>, x: T)
    requires before <= after && x in all && x in after && x !in before
    ensures |after * all| >= |before * all| + 1
  {
    SubsetSize(before * all + {x}, after * all);
  }

  // The i-th pass adds a label of the ladder to the settled ones, or nothing.
  ghost predicate GrowsAt(h: History, labels: set<string>, i: nat)
    requires i + 1 < |h.rows|
  {
    |SettledKinds(h.rows[i + 1]) * labels| >= |SettledKinds(h.rows[i]) * labels| + if SettlesAt(h, i) then 1 else 0
  }

  lemma SettlingGrows(h: History, labels: set<string>, i: nat)
    requires Chronicle(h) && Fresh(h, labels) && i < |h.attempts|
    ensures GrowsAt(h, labels, i)
  {
    StepSettles(h, i);
    if SettlesAt(h, i) {
      OneLarger(SettledKinds(h.rows[i]), SettledKinds(h.rows[i + 1]), labels, h.attempts[i].value);
    }
  }

  lemma {:induction false} SettlingPassesGrow(h: History, labels: set<string>, n: nat)
    requires n < |h.rows| && forall i :: 0 <= i < n ==> GrowsAt(h, labels, i)
    ensures SettlingPasses(h, n) <= |SettledKinds(h.rows[n]) * labels|
  {
    if n > 0 {
      SettlingPassesGrow(h, labels, n - 1);
      assert GrowsAt(h, labels, n - 1);
    }
  }

  lemma LadderLength(c: Clock)
    ensures |c.Ladder()| == if c.ReportClock? then 4 else 5
  {
  }

  // At most one pass per rung settles anything: four for an obligation, five
  // for a support period.
  lemma SettlingSweepsBounded(log: seq<Row>, run: seq<Sweep>, n: nat, c: Clock)
    requires Run(run, c) && n <= |run|
    ensures SettlingSweeps(log, run, n, c) <= |c.Ladder()| == if c.ReportClock? then 4 else 5
  {
    var h := HistoryOf(log, run, c);
    RunsAreChronicles(log, run, c);
    RunsAreFresh(log, run, c);
    forall i | 0 <= i < n ensures GrowsAt(h, Labels(c), i) {
      SettlingGrows(h, Labels(c), i);
    }
    SettlingPassesGrow(h, Labels(c), n);
    LadderLength(c);
    SubsetSize(SettledKinds(h.rows[n]) * Labels(c), Labels(c));
  }

  function SettledRows(rows: seq<Row>): nat {
    if rows == [] then 0 else SettledRows(rows[..|rows| - 1]) + if Settles(rows[|rows| - 1]) then 1 else 0
  }

  lemma {:induction false} SettledRowsOf(a: seq<Row>, b: seq<Row>)
    requires |a| <= |b| && b[..|a|] == a
    ensures SettledRows(b) <= SettledRows(a) + |b| - |a|
    ensures (forall k :: |a| <= k < |b| ==> !Settles(b[k])) ==> SettledRows(b) == SettledRows(a)
    decreases |b|
  {
    if a == b {
    } else {
      var n := |b| - 1;
      assert b[..n][..|a|] == a;
      SettledRowsOf(a, b[..n]);
    }
  }

  // The i-th pass adds at most a team of settled rows, and none unless it settles.
  ghost predicate AddsAtMost(h: History, i: nat, team: nat)
    requires i + 1 < |h.rows|
  {
    SettledRows(h.rows[i + 1]) <= SettledRows(h.rows[i]) + if SettlesAt(h, i) then team else 0
  }

  lemma PassAddsAtMost(h: History, i: nat, team: nat)
    requires Chronicle(h) && i < |h.attempts| && |h.users[i]| <= team
    ensures AddsAtMost(h, i, team)
  {
    assert Extends(h.rows[i], h.rows[i + 1], h.attempts[i], h.users[i]);
    SettledRowsOf(h.rows[i], h.rows[i + 1]);
  }

  lemma {:induction false} SettledRowsPerPass(h: History, n: nat, team: nat)
    requires n < |h.rows| && forall i :: 0 <= i < n ==> AddsAtMost(h, i, team)
    ensures SettledRows(h.rows[n]) <= SettledRows(h.rows[0]) + SettlingPasses(h, n) * team
  {
    if n > 0 {
      SettledRowsPerPass(h, n - 1, team);
      assert AddsAtMost(h, n - 1, team);
      OneMore(SettlingPasses(h, n - 1), team);
    }
  }

  lemma OneMore(passes: nat, team: nat)
    ensures (passes + 1) * team == passes * team + team
  {
  }

  // Sent and suppressed rows stop growing: however long the run, an obligation
  // never collects more than one per rung and recipient.
  lemma SettledRowsBounded(log: seq<Row>, run: seq<Sweep>, n: nat, c: Clock, team: nat)
    requires Run(run, c) && n <= |run|
    requires forall i :: 0 <= i < |run| ==> |run[i].world.recipients(c.product)| <= team
    ensures SettledRows(RowsAt(log, run, n, c)) <= SettledRows(RowsAbout(log, c))
            + (if c.ReportClock? then 4 else 5) * team
  {
    var h := HistoryOf(log, run, c);
    RunsAreChronicles(log, run, c);
    forall i | 0 <= i < n ensures AddsAtMost(h, i, team) {
      PassAddsAtMost(h, i, team);
    }
    SettledRowsPerPass(h, n, team);
    SettlingSweepsBounded(log, run, n, c);
    Scale(SettlingPasses(h, n), if c.ReportClock? then 4 else 5, team);
  }

  lemma Scale(a: nat, b: nat, team: nat)
    requires a <= b
    ensures a * team <= b * team
  {
  }

  // ---- one success settles a rung for the whole team ----

  // Some pass from the i-th on, and before the j-th, settled something.
  ghost predicate SettledBetween(h: History, i: nat, j: nat)
    requires j < |h.rows|
  {
    exists m :: i <= m < j && SettlesAt(h, m)
  }

  lemma {:induction false} SettledWithin(h: History, i: nat, j: nat, name: string)
    requires Chronicle(h) && i <= j < |h.rows| && name !in SettledKinds(h.rows[i])
    requires forall m :: i <= m < j ==> h.attempts[m] == None || h.attempts[m] == Some(name)
    ensures name in SettledKinds(h.rows[j]) <==> SettledBetween(h, i, j)
    decreases j
  {
    if i < j {
      SettledWithin(h, i, j - 1, name);
      StepSettles(h, j - 1);
    }
  }

  lemma StandingBetween(c: Clock, early: int, middle: int, late: int)
    requires early <= middle <= late && Standing(c, early) == Standing(c, late) && Standing(c, early).Some?
    ensures Standing(c, middle) == Standing(c, early)
  {
    StandingNeverRegresses(c, early, middle);
    StandingNeverRegresses(c, middle, late);
  }

  lemma SameRungSameLabel(log: seq<Row>, later: seq<Row>, c: Clock, w: World, v: World)
    requires Attempted(log, c, w).Some? && Standing(c, w.now) == Standing(c, v.now)
    ensures Attempted(later, c, v) == None || Attempted(later, c, v) == Attempted(log, c, w)
  {
  }

  lemma AttemptsStandOnTheirRung(log: seq<Row>, run: seq<Sweep>, i: nat, m: nat, j: nat, c: Clock)
    requires i <= m <= j < |run| && run[i].world.now <= run[m].world.now <= run[j].world.now
    requires AttemptAt(log, run, i, c).Some? && Standing(c, run[i].world.now) == Standing(c, run[j].world.now)
    ensures AttemptAt(log, run, m, c) == None || AttemptAt(log, run, m, c) == AttemptAt(log, run, i, c)
  {
    AttemptedLabel(LogAfter(log, run, i), c, run[i].world);
    StandingBetween(c, run[i].world.now, run[m].world.now, run[j].world.now);
    SameRungSameLabel(LogAfter(log, run, i), LogAfter(log, run, m), c, run[i].world, run[m].world);
  }

  // A recipient whose alert failed is tried again, at a later pass on the same
  // rung, exactly when no pass since has settled anything for anybody: somebody
  // else's success is the end of it.
  lemma OneSuccessSettlesForAll(log: seq<Row>, run: seq<Sweep>, i: nat, j: nat, c: Clock)
    requires Run(run, c) && i < j < |run| && AttemptAt(log, run, i, c).Some? && c in run[j].clocks
    requires Standing(c, run[i].world.now) == Standing(c, run[j].world.now)
    ensures AttemptAt(log, run, j, c)
            == if SettledBetween(HistoryOf(log, run, c), i, j) then None else AttemptAt(log, run, i, c)
  {
    var h, name := HistoryOf(log, run, c), AttemptAt(log, run, i, c).value;
    RunsAreChronicles(log, run, c);
    AttemptedLabel(LogAfter(log, run, i), c, run[i].world);
    forall m | i <= m < j ensures h.attempts[m] == None || h.attempts[m] == Some(name) {
      AttemptsStandOnTheirRung(log, run, i, m, j, c);
    }
    SettledWithin(h, i, j, name);
  }

  // ---- what settles a rung ----

  lemma OneMoreSettles(log: seq<Row>, c: Clock, kind: string, user: Id, outcome: SendOutcome, now: int)
    requires c.SupportClock? ==> IsSupportKind(kind)
    ensures kind in Settled(log + [OutcomeRow(c, kind, user, outcome, now)], c) <==>
            kind in Settled(log, c) || outcome != Broke
  {
    var row := OutcomeRow(c, kind, user, outcome, now);
    RowsAboutAppend(log, row, c);
    assert Settled(log + [row], c) == Settled(log, c) + if Settles(row) then {kind} else {};
  }

  lemma {:induction false} FanOutSettles(log: seq<Row>, c: Clock, kind: string, users: seq<Id>, w: World)
    requires c.SupportClock? ==> IsSupportKind(kind)
    ensures var after := FannedOut(log, c, kind, users, w);
            && |after| == |log| + |users|
            && (kind in Settled(after, c) <==>
                kind in Settled(log, c) || exists n :: |log| <= n < |after| && w.send(n) != Broke)
  {
    if users != [] {
      var front, last := users[..|users| - 1], users[|users| - 1];
      FanOutSettles(log, c, kind, front, w);
      var before := FannedOut(log, c, kind, front, w);
      OneMoreSettles(before, c, kind, last, w.send(|before|), w.now);
    }
  }

  lemma SweptAfter(log: seq<Row>, front: seq<Clock>, c: Clock, rest: seq<Clock>, w: World)
    requires forall d :: d in rest ==> !SameSubject(c, d)
    ensures RowsAbout(Swept(log, (front + [c]) + rest, w), c) == RowsAbout(SweptClock(Swept(log, front, w), c, w), c)
  {
    SweptConcat(log, front + [c], rest, w);
    assert (front + [c])[..|front|] == front;
    SweptElsewhere(SweptClock(Swept(log, front, w), c, w), rest, w, c);
  }

  // A pass works on one clock of its list at the log its predecessors left, and
  // nothing after it concerns that clock.
  lemma SweptAround(log: seq<Row>, clocks: seq<Clock>, w: World, p: nat)
    requires Distinct(clocks) && p < |clocks|
    ensures var before := Swept(log, clocks[..p], w);
            && RowsAbout(before, clocks[p]) == RowsAbout(log, clocks[p])
            && RowsAbout(Swept(log, clocks, w), clocks[p]) == RowsAbout(SweptClock(before, clocks[p], w), clocks[p])
  {
    assert clocks == (clocks[..p] + [clocks[p]]) + clocks[p + 1..];
    SweptElsewhere(log, clocks[..p], w, clocks[p]);
    SweptAfter(log, clocks[..p], clocks[p], clocks[p + 1..], w);
  }

  // An attempt settles its rung exactly when some send it made was delivered or
  // not configured; one whose every send broke leaves the rung owed.
  lemma AttemptSettles(log: seq<Row>, clocks: seq<Clock>, w: World, p: nat)
    requires Distinct(clocks) && p < |clocks| && Attempted(log, clocks[p], w).Some?
    ensures var c, start := clocks[p], |Swept(log, clocks[..p], w)|;
            Attempted(log, c, w).value in Settled(Swept(log, clocks, w), c) <==>
            exists n :: start <= n < start + |w.recipients(c.product)| && w.send(n) != Broke
  {
    var c, before := clocks[p], Swept(log, clocks[..p], w);
    SweptAround(log, clocks, w, p);
    AttemptedLabel(log, c, w);
    FanOutSettles(before, c, Attempted(before, c, w).value, w.recipients(c.product), w);
  }

  // So the next pass on the same rung tries it again exactly when every send broke.
  lemma BrokenIsRetried(log: seq<Row>, run: seq<Sweep>, i: nat, p: nat, c: Clock)
    requires Run(run, c) && i + 1 < |run| && p < |run[i].clocks| && run[i].clocks[p] == c && c in run[i + 1].clocks
    requires AttemptAt(log, run, i, c).Some? && Standing(c, run[i].world.now) == Standing(c, run[i + 1].world.now)
    ensures var w, start := run[i].world, |Swept(LogAfter(log, run, i), run[i].clocks[..p], run[i].world)|;
            AttemptAt(log, run, i + 1, c)
            == if forall n :: start <= n < start + |w.recipients(c.product)| ==> w.send(n) == Broke
               then AttemptAt(log, run, i, c) else None
  {
    AttemptSettles(LogAfter(log, run, i), run[i].clocks, run[i].world, p);
    AttemptedLabel(LogAfter(log, run, i), c, run[i].world);
    assert c in run[i].clocks;
  }

  // ---- no rung is missed ----

  // The time remaining at which a rung's window opens.
  function Threshold(c: Clock, k: nat): int
    requires k < |c.Ladder()|
  {
    if c.Ladder()[k].Passed? then -1 else c.Ladder()[k].n * c.RungUnit()
  }

  // Sweeps at most two hours apart cannot step over a rung.
  lemma {:induction false} WindowIsHit(run: seq<Sweep>, c: Clock, k: nat, m: nat) returns (i: nat)
    requires Run(run, c) && c.ReportClock? && k < 4 && m < |run|
    requires forall j :: 0 < j < |run| ==> run[j].world.now - run[j - 1].world.now <= 2 * HOUR
    requires c.due - run[0].world.now > Threshold(c, 0)
    requires c.due - run[m].world.now <= Threshold(c, k)
    ensures i <= m && InWindow(c, k, run[i].world.now)
    ensures forall j :: 0 <= j < i ==> c.due - run[j].world.now > Threshold(c, k)
    decreases m
  {
    assert Threshold(c, 0) >= Threshold(c, k);
    if c.due - run[m - 1].world.now <= Threshold(c, k) {
      i := WindowIsHit(run, c, k, m - 1);
    } else {
      i := m;
    }
  }

  lemma NotTriedBeforeWindow(log: seq<Row>, c: Clock, w: World, k: nat)
    requires k < |c.Ladder()| && c.At() - w.now > Threshold(c, k)
    ensures Attempted(log, c, w) != Some(c.Label(c.Ladder()[k]))
  {
    if Attempted(log, c, w).Some? {
      AttemptedLabel(log, c, w);
      var l := Standing(c, w.now).value;
      StandingIsWindow(c, w.now, k);
      LabelsNameRungs(c.Ladder()[k], c.Ladder()[l]);
      RungsDiffer(c, k, l);
    }
  }

  lemma UnsettledBeforeWindow(log: seq<Row>, run: seq<Sweep>, c: Clock, k: nat, i: nat)
    requires Run(run, c) && k < |c.Ladder()| && i <= |run|
    requires c.Label(c.Ladder()[k]) !in Settled(log, c)
    requires forall j :: 0 <= j < i ==> c.At() - run[j].world.now > Threshold(c, k)
    ensures c.Label(c.Ladder()[k]) !in Settled(LogAfter(log, run, i), c)
  {
    var h, name := HistoryOf(log, run, c), c.Label(c.Ladder()[k]);
    RunsAreChronicles(log, run, c);
    forall j | 0 <= j < i ensures h.attempts[j] != Some(name) {
      NotTriedBeforeWindow(LogAfter(log, run, j), c, run[j].world, k);
    }
    UntriedIsUnsettled(h, name, i);
  }

  lemma RungsDiffer(c: Clock, k: nat, l: nat)
    requires k < |c.Ladder()| && l < |c.Ladder()|
    ensures c.Ladder()[k] == c.Ladder()[l] ==> k == l
  {
  }

  // Every sweep inside a rung's window tries that rung until some row settles
  // it, and tries nothing else.
  lemma AttemptInWindow(log: seq<Row>, run: seq<Sweep>, c: Clock, k: nat, i: nat)
    requires i < |run| && c in run[i].clocks && k < |c.Ladder()| && InWindow(c, k, run[i].world.now)
    ensures AttemptAt(log, run, i, c) ==
            if c.Label(c.Ladder()[k]) in Settled(LogAfter(log, run, i), c) then None else Some(c.Label(c.Ladder()[k]))
  {
    StandingIsWindow(c, run[i].world.now, k);
  }

  // Every reporting window lies within the last week.
  lemma WindowIsNear(c: Clock, k: nat, now: int)
    requires c.ReportClock? && k < |c.Ladder()| && InWindow(c, k, now)
    ensures c.due - now <= 168 * HOUR
  {
  }

  // If sweeps are at most two hours apart, begin before the first rung and see
  // the obligation whenever it is due within a week, then every rung whose moment
  // has come was attempted inside its own window, unless an earlier log had
  // already settled it.
  lemma EveryRungAttempted(log: seq<Row>, run: seq<Sweep>, c: Clock, k: nat, m: nat) returns (i: nat)
    requires Run(run, c) && c.ReportClock? && k < 4 && m < |run|
    requires forall j :: 0 < j < |run| ==> run[j].world.now - run[j - 1].world.now <= 2 * HOUR
    requires forall j :: 0 <= j <= m && c.due - run[j].world.now <= 168 * HOUR ==> c in run[j].clocks
    requires c.due - run[0].world.now > Threshold(c, 0)
    requires c.due - run[m].world.now <= Threshold(c, k)
    requires c.Label(c.Ladder()[k]) !in Settled(log, c)
    ensures i <= m && InWindow(c, k, run[i].world.now)
    ensures AttemptAt(log, run, i, c) == Some(c.Label(c.Ladder()[k]))
  {
    i := WindowIsHit(run, c, k, m);
    WindowIsNear(c, k, run[i].world.now);
    UnsettledBeforeWindow(log, run, c, k, i);
    AttemptInWindow(log, run, c, k, i);
  }

  // ---- runs of passes over the stored tables ----

  // What one pass finds: the obligation and product tables, and the world.
  datatype Pass = Pass(obs: seq<Obligation>, products: seq<Product>, world: World)

  function SweepOf(lookahead: int): Pass -> Sweep {
    (p: Pass) => Sweep(Visible(p.obs, p.products, p.world.now, lookahead), p.world)
  }

  // Time never decreases, ids are keys, and this clock's deadline stays put
  // however often its row is read.
  ghost predicate Steady(passes: seq<Pass>, c: Clock) {
    && (forall i, j :: 0 <= i < j < |passes| ==> passes[i].world.now <= passes[j].world.now)
    && (forall p :: p in passes ==> DistinctBy(p.obs, ObligationId()) && DistinctBy(p.products, ProductId()))
    && (forall p, o :: p in passes && o in p.obs && SameSubject(c, o.Clock()) ==> o.Clock() == c)
    && (forall p, q :: p in passes && q in p.products && q.supportEnd.Some? && SameSubject(c, SupportClockOf(q)) ==>
          SupportClockOf(q) == c)
  }

  // Passes over the visible clocks are runs, so everything said of runs holds of them.
  lemma PassesAreRuns(passes: seq<Pass>, lookahead: int, c: Clock)
    requires Steady(passes, c)
    ensures Run(Map(passes, SweepOf(lookahead)), c)
  {
    var run := Map(passes, SweepOf(lookahead));
    forall i | 0 <= i < |run| ensures Distinct(run[i].clocks) && run[i].world == passes[i].world {
      VisibleExactly(passes[i].obs, passes[i].products, passes[i].world.now, lookahead);
    }
    forall i, d | 0 <= i < |run| && d in run[i].clocks && SameSubject(c, d) ensures d == c {
      OnlyOneDeadline(passes[i], lookahead, c, d);
    }
  }

  lemma OnlyOneDeadline(p: Pass, lookahead: int, c: Clock, d: Clock)
    requires Steady([p], c) && d in SweepOf(lookahead)(p).clocks && SameSubject(c, d)
    ensures d == c
  {
    assert p in [p];
    VisibleExactly(p.obs, p.products, p.world.now, lookahead);
    if o :| o in p.obs && o.submitted == None && o.waived == None && d == ReportClock(o.id, o.product, o.stage, o.due) {
      assert d == o.Clock();
    } else {
      var q :| q in p.products && q.supportEnd.Some? && d == SupportClock(q.id, q.supportEnd.value);
      assert SupportClockOf(q) == d;
    }
  }

  // The obligation behind the clock is on record, neither submitted nor waived.
  ghost predicate StillOpen(p: Pass, c: Clock) {
    exists o :: o in p.obs && o.submitted == None && o.waived == None
      && c == ReportClock(o.id, o.product, o.stage, o.due)
  }

  lemma OpenIsSeen(p: Pass, lookahead: int, c: Clock)
    requires StillOpen(p, c) && c.ReportClock? && c.due <= p.world.now + lookahead
    ensures c in SweepOf(lookahead)(p).clocks
  {
    VisibleExactly(p.obs, p.products, p.world.now, lookahead);
  }

  lemma NearIsSeen(passes: seq<Pass>, lookahead: int, c: Clock, m: nat)
    requires c.ReportClock? && lookahead >= 168 * HOUR && m < |passes|
    requires forall j :: 0 <= j <= m ==> StillOpen(passes[j], c)
    ensures var run := Map(passes, SweepOf(lookahead));
            forall j :: 0 <= j <= m && c.due - run[j].world.now <= 168 * HOUR ==> c in run[j].clocks
  {
    forall j | 0 <= j <= m && c.due - passes[j].world.now <= 168 * HOUR
      ensures c in SweepOf(lookahead)(passes[j]).clocks
    {
      OpenIsSeen(passes[j], lookahead, c);
    }
  }

  // An obligation left open in the tables is alerted on every rung, by passes at
  // most two hours apart over whatever a lookahead of a week or more lets them see.
  lemma EveryRungAlerted(log: seq<Row>, passes: seq<Pass>, lookahead: int, c: Clock, k: nat, m: nat) returns (i: nat)
    requires Steady(passes, c) && c.ReportClock? && k < 4 && m < |passes| && lookahead >= 168 * HOUR
    requires forall j :: 0 < j < |passes| ==> passes[j].world.now - passes[j - 1].world.now <= 2 * HOUR
    requires forall j :: 0 <= j <= m ==> StillOpen(passes[j], c)
    requires c.due - passes[0].world.now > Threshold(c, 0)
    requires c.due - passes[m].world.now <= Threshold(c, k)
    requires c.Label(c.Ladder()[k]) !in Settled(log, c)
    ensures i <= m && InWindow(c, k, passes[i].world.now)
    ensures AttemptAt(log, Map(passes, SweepOf(lookahead)), i, c) == Some(c.Label(c.Ladder()[k]))
  {
    var run := Map(passes, SweepOf(lookahead));
    PassesAreRuns(passes, lookahead, c);
    NearIsSeen(passes, lookahead, c, m);
    i := EveryRungAttempted(log, run, c, k, m);
  }

  // ---- the lookahead hides nothing ----

  function Everything(obs: seq<Obligation>, products: seq<Product>): seq<Clock> {
    Map(SortBy(Filter(obs, (o: Obligation) => o.Open()), DueLeq()), ClockOf())
    + Map(Filter(products, (p: Product) => p.supportEnd.Some? && p.tracked), SupportClockOf)
  }

  predicate Near(c: Clock, now: int, lookahead: int) {
    c.At() <= now + if c.ReportClock? then lookahead else SUPPORT_HORIZON
  }

  function NearNow(now: int, lookahead: int): Clock -> bool { (c: Clock) => Near(c, now, lookahead) }

  lemma VisibleIsNear(obs: seq<Obligation>, products: seq<Product>, now: int, lookahead: int)
    ensures Visible(obs, products, now, lookahead) == Filter(Everything(obs, products), NearNow(now, lookahead))
  {
    var near := NearNow(now, lookahead);
    var open := (o: Obligation) => o.Open();
    var openNear := NearOpen(now + lookahead);
    var clock := ClockOf();
    assert Total(DueLeq()) && Transitive(DueLeq());
    FilterOfSort(obs, DueLeq(), open);
    FilterOfSort(obs, DueLeq(), openNear);
    FilterOfMap(SortBy(obs, DueLeq()), open, clock, near, openNear);
    var tracked := (p: Product) => p.supportEnd.Some? && p.tracked;
    var trackedNear := TrackedNear(now + SUPPORT_HORIZON);
    FilterOfMap(products, tracked, SupportClockOf, near, trackedNear);
    FilterConcat(Map(SortBy(Filter(obs, open), DueLeq()), clock), Map(Filter(products, tracked), SupportClockOf), near);
  }

  lemma FarClockIsSilent(log: seq<Row>, c: Clock, w: World, lookahead: int)
    requires lookahead >= 168 * HOUR && !Near(c, w.now, lookahead)
    ensures Attempted(log, c, w) == None && SweptClock(log, c, w) == log
  {
    StandingIsWindow(c, w.now, 0);
  }

  // A pass that looks at these clocks does what one that looks at those does.
  ghost predicate SamePass(log: seq<Row>, these: seq<Clock>, those: seq<Clock>, w: World) {
    && Swept(log, these, w) == Swept(log, those, w)
    && Attempts(log, these, w) == Attempts(log, those, w)
    && Plan(log, these, w) == Plan(log, those, w)
  }

  // What a pass writes, attempts and, when dry, plans.
  function PassOf(log: seq<Row>, w: World): seq<Clock> -> (seq<Row>, seq<(Clock, string)>, seq<(Clock, string)>) {
    (clocks: seq<Clock>) => (Swept(log, clocks, w), Attempts(log, clocks, w), Plan(log, clocks, w))
  }

  lemma OneMoreNear(clocks: seq<Clock>, c: Clock, now: int, lookahead: int)
    ensures Filter(clocks + [c], NearNow(now, lookahead))
            == Filter(clocks, NearNow(now, lookahead)) + if Near(c, now, lookahead) then [c] else []
  {
    assert (clocks + [c])[..|clocks|] == clocks;
    assert Filter(clocks, NearNow(now, lookahead)) + [] == Filter(clocks, NearNow(now, lookahead));
  }

  lemma OneMoreClock(log: seq<Row>, these: seq<Clock>, those: seq<Clock>, w: World, c: Clock, lookahead: int)
    requires SamePass(log, these, those, w) && lookahead >= 168 * HOUR
    ensures SamePass(log, these + if Near(c, w.now, lookahead) then [c] else [], those + [c], w)
  {
    assert these + [] == these;
    assert (these + [c])[..|these|] == these && (those + [c])[..|those|] == those;
    if !Near(c, w.now, lookahead) {
      FarClockIsSilent(log, c, w, lookahead);
      FarClockIsSilent(Swept(log, those, w), c, w, lookahead);
    }
  }

  lemma OneMorePass(log: seq<Row>, front: seq<Clock>, w: World, c: Clock, lookahead: int)
    requires SamePass(log, Filter(front, NearNow(w.now, lookahead)), front, w) && lookahead >= 168 * HOUR
    ensures SamePass(log, Filter(front + [c], NearNow(w.now, lookahead)), front + [c], w)
  {
    OneMoreClock(log, Filter(front, NearNow(w.now, lookahead)), front, w, c, lookahead);
    OneMoreNear(front, c, w.now, lookahead);
  }

  lemma SilentClocksDropOut(log: seq<Row>, clocks: seq<Clock>, w: World, lookahead: int)
    requires lookahead >= 168 * HOUR
    ensures PassOf(log, w)(Filter(clocks, NearNow(w.now, lookahead))) == PassOf(log, w)(clocks)
  {
    forall front: seq<Clock>, c: Clock |
      PassOf(log, w)(Filter(front, NearNow(w.now, lookahead))) == PassOf(log, w)(front)
      ensures PassOf(log, w)(Filter(front + [c], NearNow(w.now, lookahead))) == PassOf(log, w)(front + [c])
    {
      OneMorePass(log, front, w, c, lookahead);
    }
    DropsOut(clocks, NearNow(w.now, lookahead), PassOf(log, w));
  }

  // A pass over the filtered set attempts, writes and when dry plans what a pass
  // over every open obligation and every tracked support period would.
  lemma LookaheadHidesNothing(log: seq<Row>, obs: seq<Obligation>, products: seq<Product>, lookahead: int, w: World)
    requires lookahead >= 168 * HOUR
    ensures SamePass(log, Visible(obs, products, w.now, lookahead), Everything(obs, products), w)
    ensures DEFAULT_LOOKAHEAD == 8 * 86_400_000_000 >= 168 * HOUR
  {
    VisibleIsNear(obs, products, w.now, lookahead);
    SilentClocksDropOut(log, Everything(obs, products), w, lookahead);
  }

  // Any shorter lookahead hides an alert that is already due.
  lemma ShorterLookaheadHides(lookahead: int, w: World, user: Id) returns (obs: seq<Obligation>)
    requires lookahead < 168 * HOUR && w.recipients("p") == [user]
    ensures Swept([], Visible(obs, [], w.now, lookahead), w) != Swept([], Everything(obs, []), w)
  {
    var o := Obligation("o", "p", Final, w.now + 168 * HOUR, None, None);
    obs := [o];
    VisibleIsNear(obs, [], w.now, lookahead);
    var open := (o: Obligation) => o.Open();
    assert obs[..0] == [] && Filter(obs, open) == obs;
    assert SortBy(obs[1..], DueLeq()) == [] && SortBy(obs, DueLeq()) == obs;
    assert Everything(obs, []) == [o.Clock()];
    assert [o.Clock()][..0] == [];
    assert Filter([o.Clock()], NearNow(w.now, lookahead)) == [];
    StandingIsWindow(o.Clock(), w.now, 0);
    assert Settled([], o.Clock()) == {};
    assert Attempted([], o.Clock(), w).Some?;
    assert [user][..0] == [];
    assert |FannedOut([], o.Clock(), Attempted([], o.Clock(), w).value, [user], w)| == 1;
    assert |SweptClock([], o.Clock(), w)| == 1;
    assert Swept([], [o.Clock()], w) == SweptClock(Swept([], [], w), o.Clock(), w);
  }
}
