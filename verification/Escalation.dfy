// The escalation ladders: which rung a clock has reached, and what it is called
// (src/cra/deadlines.py `due_rung`, src/cra/server/deadline_sweeper.py `eos_rung`).
module Escalation {
  import opened Ordering
  import opened Calendar
  import opened Deadlines

  type Id = string

  // `Passed` is the last rung of every ladder: the moment itself is over.
  datatype Rung = Left(n: nat) | Passed

  // What the sweeper counts down: a reporting obligation or a support period.
  datatype Clock =
    | ReportClock(obligation: Id, product: Id, stage: Stage, due: int)
    | SupportClock(product: Id, end: int)
  {
    function At(): int { if ReportClock? then due else end }

    // Hours on a reporting ladder, days on a support ladder.
    function RungUnit(): int { if ReportClock? then HOUR else DAY }

    function Ladder(): seq<Rung> {
      match this
      case SupportClock(_, _) => [Left(180), Left(90), Left(30), Left(7), Passed]
      case ReportClock(_, _, EarlyWarning, _) => [Left(12), Left(6), Left(2), Passed]
      case ReportClock(_, _, Notification, _) => [Left(48), Left(24), Left(6), Passed]
      case ReportClock(_, _, Final, _) => [Left(168), Left(72), Left(24), Passed]
    }

    function Label(rung: Rung): string { if ReportClock? then RungLabel(rung) else SupportKind(rung) }

    predicate Crossed(rung: Rung, now: int) {
      match rung
      case Passed => At() - now < 0
      case Left(n) => 0 <= At() - now <= n * RungUnit()
    }
  }

  // ---- labels ----

  function Digit(d: nat): char
    requires d < 10
  {
    "0123456789"[d]
  }

  function Decimal(n: nat): string {
    if n < 10 then [Digit(n)] else Decimal(n / 10) + [Digit(n % 10)]
  }

  function RungLabel(rung: Rung): string {
    match rung
    case Passed => "overdue"
    case Left(n) => if n >= 24 && n % 24 == 0 then "T-" + Decimal(n / 24) + "d" else "T-" + Decimal(n) + "h"
  }

  const EOS_PREFIX := "eos:"

  function SupportKind(rung: Rung): string {
    match rung
    case Passed => EOS_PREFIX + "ended"
    case Left(n) => EOS_PREFIX + "T-" + Decimal(n) + "d"
  }

  predicate IsSupportKind(kind: string) { EOS_PREFIX <= kind }

  lemma {:induction false} DecimalInjective(a: nat, b: nat)
    requires Decimal(a) == Decimal(b)
    ensures a == b
  {
    var da, db := Decimal(a), Decimal(b);
    assert da[|da| - 1] == Digit(a % 10) && db[|db| - 1] == Digit(b % 10);
    if a >= 10 && b >= 10 {
      assert da[..|da| - 1] == Decimal(a / 10) && db[..|db| - 1] == Decimal(b / 10);
      DecimalInjective(a / 10, b / 10);
    } else {
      DecimalNonEmpty(a / 10);
      DecimalNonEmpty(b / 10);
    }
  }

  lemma DecimalNonEmpty(n: nat)
    ensures |Decimal(n)| > 0
  {
  }

  lemma WrappedDecimal(prefix: string, a: nat, b: nat, suffix: string)
    requires prefix + Decimal(a) + suffix == prefix + Decimal(b) + suffix
    ensures a == b
  {
    var p, q := prefix + Decimal(a) + suffix, prefix + Decimal(b) + suffix;
    assert p[|prefix|..|p| - |suffix|] == Decimal(a) && q[|prefix|..|q| - |suffix|] == Decimal(b);
    DecimalInjective(a, b);
  }

  // A label names its rung: within a ladder labels never collide, and a
  // support kind is never a reporting label.
  lemma LabelsNameRungs(r: Rung, s: Rung)
    ensures RungLabel(r) == RungLabel(s) ==> r == s
    ensures SupportKind(r) == SupportKind(s) ==> r == s
    ensures IsSupportKind(SupportKind(r)) && !IsSupportKind(RungLabel(s))
  {
    assert RungLabel(s)[0] != 'e' && SupportKind(r)[0] == 'e';
    assert SupportKind(r)[..4] == EOS_PREFIX;
    if r.Passed? || s.Passed? {
      if r != s {
        assert RungLabel(r)[0] != RungLabel(s)[0] && SupportKind(r)[4] != SupportKind(s)[4];
      }
    } else {
      SupportLabels(r.n, s.n);
      ReportLabels(r.n, s.n);
    }
  }

  lemma SupportLabels(a: nat, b: nat)
    ensures SupportKind(Left(a)) == SupportKind(Left(b)) ==> a == b
  {
    if SupportKind(Left(a)) == SupportKind(Left(b)) {
      WrappedDecimal(EOS_PREFIX + "T-", a, b, "d");
    }
  }

  lemma ReportLabels(a: nat, b: nat)
    ensures RungLabel(Left(a)) == RungLabel(Left(b)) ==> a == b
  {
    var p, q := RungLabel(Left(a)), RungLabel(Left(b));
    if p == q {
      assert p[|p| - 1] == q[|q| - 1];
      if p[|p| - 1] == 'd' {
        WrappedDecimal("T-", a / 24, b / 24, "d");
      } else {
        WrappedDecimal("T-", a, b, "h");
      }
    }
  }

  // ---- the rung a clock stands on ----

  // The most urgent of the first k rungs that the clock has crossed.
  function Reached(c: Clock, now: int, k: nat): (r: Option<nat>)
    requires k <= |c.Ladder()|
    ensures r.Some? ==> r.value < k && c.Crossed(c.Ladder()[r.value], now)
    ensures forall j :: (if r.Some? then r.value < j < k else 0 <= j < k) ==> !c.Crossed(c.Ladder()[j], now)
  {
    if k == 0 then None
    else if c.Crossed(c.Ladder()[k - 1], now) then Some(k - 1)
    else Reached(c, now, k - 1)
  }

  function Standing(c: Clock, now: int): (r: Option<nat>)
    ensures r.Some? ==> r.value < |c.Ladder()|
  {
    Reached(c, now, |c.Ladder()|)
  }

  // What is owed now, given the labels that need no further attempt.
  function DueKind(c: Clock, now: int, settled: set<string>): Option<string> {
    match Standing(c, now)
    case None => None
    case Some(k) => (var name := c.Label(c.Ladder()[k]); if name in settled then None else Some(name))
  }

  // The loop of `due_rung` and `eos_rung`: most urgent rung first.
  method MostUrgentUnsent(c: Clock, now: int, settled: set<string>) returns (kind: Option<string>)
    ensures kind == DueKind(c, now, settled)
  {
    var ladder := c.Ladder();
    var k := |ladder|;
    while k > 0
      invariant 0 <= k <= |ladder|
      invariant Reached(c, now, k) == Standing(c, now)
    {
      k := k - 1;
      if c.Crossed(ladder[k], now) {
        var name := c.Label(ladder[k]);
        return if name in settled then None else Some(name);
      }
    }
    return None;
  }

  // Time remaining at which rung k gives way to the next one.
  function WindowEnd(c: Clock, k: nat): int
    requires k + 1 < |c.Ladder()|
  {
    if c.Ladder()[k + 1].Passed? then -1 else c.Ladder()[k + 1].n * c.RungUnit()
  }

  ghost predicate InWindow(c: Clock, k: nat, now: int)
    requires k < |c.Ladder()|
  {
    if k + 1 == |c.Ladder()| then c.At() - now < 0
    else WindowEnd(c, k) < c.At() - now <= c.Ladder()[k].n * c.RungUnit()
  }

  // The windows partition the time after the first rung, and the rung a clock
  // stands on is the one whose window it is in.
  lemma StandingIsWindow(c: Clock, now: int, k: nat)
    requires k < |c.Ladder()|
    ensures Standing(c, now) == Some(k) <==> InWindow(c, k, now)
    ensures Standing(c, now) == None <==> c.At() - now > c.Ladder()[0].n * c.RungUnit()
  {
    match c
    case SupportClock(_, _) =>
      assert c.Ladder() == [Left(180), Left(90), Left(30), Left(7), Passed];
    case ReportClock(_, _, stage, _) =>
      match stage
      case EarlyWarning => assert c.Ladder() == [Left(12), Left(6), Left(2), Passed];
      case Notification => assert c.Ladder() == [Left(48), Left(24), Left(6), Passed];
      case Final => assert c.Ladder() == [Left(168), Left(72), Left(24), Passed];
  }

  // The alert owed with this much time left, in hours for a report and in days
  // for a support period, as the two ladders are published.
  ghost function OwedLabel(c: Clock, left: int): Option<string> {
    var hour, day := 3_600_000_000, 86_400_000_000;
    match c
    case SupportClock(_, _) =>
      if left < 0 then Some("eos:ended")
      else if left <= 7 * day then Some("eos:T-7d")
      else if left <= 30 * day then Some("eos:T-30d")
      else if left <= 90 * day then Some("eos:T-90d")
      else if left <= 180 * day then Some("eos:T-180d")
      else None
    case ReportClock(_, _, stage, _) =>
      if left < 0 then Some("overdue")
      else
        match stage
        case EarlyWarning =>
          if left <= 2 * hour then Some("T-2h")
          else if left <= 6 * hour then Some("T-6h")
          else if left <= 12 * hour then Some("T-12h")
          else None
        case Notification =>
          if left <= 6 * hour then Some("T-6h")
          else if left <= 24 * hour then Some("T-1d")
          else if left <= 48 * hour then Some("T-2d")
          else None
        case Final =>
          if left <= 24 * hour then Some("T-1d")
          else if left <= 72 * hour then Some("T-3d")
          else if left <= 168 * hour then Some("T-7d")
          else None
  }

  lemma Numerals()
    ensures Decimal(1) == "1" && Decimal(2) == "2" && Decimal(3) == "3" && Decimal(6) == "6" && Decimal(7) == "7"
    ensures Decimal(12) == "12" && Decimal(30) == "30" && Decimal(90) == "90" && Decimal(180) == "180"
  {
    assert Decimal(18) == "18";
  }

  lemma HourTexts()
    ensures RungLabel(Left(2)) == "T-2h" && RungLabel(Left(6)) == "T-6h" && RungLabel(Left(12)) == "T-12h"
  {
    Numerals();
  }

  lemma DayTexts()
    ensures RungLabel(Left(24)) == "T-1d" && RungLabel(Left(48)) == "T-2d" && RungLabel(Left(72)) == "T-3d"
    ensures RungLabel(Left(168)) == "T-7d" && RungLabel(Passed) == "overdue"
  {
    Numerals();
  }

  lemma SupportTexts()
    ensures SupportKind(Left(7)) == "eos:T-7d" && SupportKind(Left(30)) == "eos:T-30d"
    ensures SupportKind(Left(90)) == "eos:T-90d" && SupportKind(Left(180)) == "eos:T-180d"
    ensures SupportKind(Passed) == "eos:ended"
  {
    Numerals();
  }

  // Where a clock stands, by the clock alone.
  lemma StandingLabel(c: Clock, now: int)
    ensures var left := (if c.ReportClock? then c.due else c.end) - now;
            match Standing(c, now)
            case None => OwedLabel(c, left) == None
            case Some(k) => OwedLabel(c, left) == Some(c.Label(c.Ladder()[k]))
  {
    HourTexts();
    DayTexts();
    SupportTexts();
    match Standing(c, now)
    case None => StandingIsWindow(c, now, 0);
    case Some(k) => StandingIsWindow(c, now, k);
  }

  // What is owed is the published label, unless that label is settled.
  lemma DueKindExactly(c: Clock, now: int, settled: set<string>)
    ensures var owed := OwedLabel(c, (if c.ReportClock? then c.due else c.end) - now);
            DueKind(c, now, settled) == if owed.Some? && owed.value in settled then None else owed
  {
    StandingLabel(c, now);
  }

  // Urgency never falls as time passes.
  lemma StandingNeverRegresses(c: Clock, t: int, u: int)
    requires t <= u && Standing(c, t).Some?
    ensures Standing(c, u).Some? && Standing(c, t).value <= Standing(c, u).value
  {
    var i := Standing(c, t).value;
    StandingIsWindow(c, t, i);
    if Standing(c, u).Some? {
      var j := Standing(c, u).value;
      StandingIsWindow(c, u, j);
    } else {
      StandingIsWindow(c, u, 0);
    }
  }

  // An open obligation owes its overdue alert exactly when its derived status
  // is overdue.
  lemma OverdueRungIsOverdueStatus(c: Clock, now: int)
    requires c.ReportClock?
    ensures DueKind(c, now, {}) == Some("overdue") <==> ObligationStateOf(c.due, None, None, c.stage, now) == Overdue
  {
    if DueKind(c, now, {}).Some? {
      var k := Standing(c, now).value;
      LabelsNameRungs(c.Ladder()[k], Passed);
    }
    StandingIsWindow(c, now, 3);
  }
}
