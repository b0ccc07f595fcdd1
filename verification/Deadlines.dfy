// The Article 14 schedule: which stage falls due when (src/cra/deadlines.py).
module Deadlines {
  import opened Ordering
  import opened Calendar

  datatype Stage = EarlyWarning | Notification | Final

  datatype IncidentKind = ActivelyExploited | SevereIncident

  datatype Anchor = Awareness | CorrectiveMeasure

  datatype Offset = Elapsed(micros: int) | CalendarMonths(months: int)

  datatype StageRule = StageRule(stage: Stage, anchor: Anchor, offset: Offset)

  // A timestamp without a zone cannot anchor a deadline; an aware one is
  // normalised to UTC before any arithmetic.
  datatype Stamp = Naive | Utc(at: Civil) {
    predicate Valid() { Utc? ==> at.Valid() }
  }

  datatype DeadlineError = NaiveTimestamp | OutOfCalendar

  function Rules(kind: IncidentKind): seq<StageRule> {
    [StageRule(EarlyWarning, Awareness, Elapsed(24 * HOUR)),
     StageRule(Notification, Awareness, Elapsed(72 * HOUR)),
     match kind
     case ActivelyExploited => StageRule(Final, CorrectiveMeasure, Elapsed(14 * DAY))
     case SevereIncident => StageRule(Final, Awareness, CalendarMonths(1))]
  }

  // The first instant after year 9999.
  function EndOfCalendar(): int { MonthStart(12 * (MAX_YEAR + 1)) * DAY }

  function DueFrom(base: Stamp, offset: Offset): Result<int, DeadlineError> {
    if base.Naive? then Err(NaiveTimestamp)
    else match offset
      case CalendarMonths(n) =>
        (match AddMonths(base.at, n)
         case Ok(dt) => Ok(Instant(dt))
         case Err(_) => Err(OutOfCalendar))
      case Elapsed(d) => if Instant(base.at) + d < EndOfCalendar() then Ok(Instant(base.at) + d) else Err(OutOfCalendar)
  }

  // None: the stage's anchor has not happened, so its clock has not started.
  function DueAtFor(rule: StageRule, aware: Stamp, corrective: Option<Stamp>): Result<Option<int>, DeadlineError> {
    if rule.anchor.CorrectiveMeasure? && corrective.None? then Ok(None)
    else
      var base := if rule.anchor.Awareness? then aware else corrective.value;
      match DueFrom(base, rule.offset)
      case Ok(due) => Ok(Some(due))
      case Err(e) => Err(e)
  }

  function Started(stage: Stage, due: Option<int>): seq<(Stage, int)> {
    if due.Some? then [(stage, due.value)] else []
  }

  function Prepend<T, E>(done: seq<T>, rest: Result<seq<T>, E>): Result<seq<T>, E> {
    if rest.Ok? then Ok(done + rest.value) else rest
  }

  lemma PrependTwice<T, E>(a: seq<T>, b: seq<T>, rest: Result<seq<T>, E>)
    ensures Prepend(a, Prepend(b, rest)) == Prepend(a + b, rest)
    ensures Prepend([], rest) == rest
  {
    if rest.Ok? {
      assert a + (b + rest.value) == a + b + rest.value;
      assert [] + rest.value == rest.value;
    }
  }

  // Every stage whose clock has started, in schedule order.
  function Scheduled(rules: seq<StageRule>, aware: Stamp, corrective: Option<Stamp>)
    : Result<seq<(Stage, int)>, DeadlineError>
  {
    if rules == [] then Ok([])
    else
      match DueAtFor(rules[0], aware, corrective)
      case Err(e) => Err(e)
      case Ok(due) =>
        Prepend(Started(rules[0].stage, due), Scheduled(rules[1..], aware, corrective))
  }

  method ScheduleFor(kind: IncidentKind, aware: Stamp, corrective: Option<Stamp>)
    returns (r: Result<seq<(Stage, int)>, DeadlineError>)
    ensures r == Scheduled(Rules(kind), aware, corrective)
  {
    var rules := Rules(kind);
    var out: seq<(Stage, int)> := [];
    assert rules[0..] == rules;
    PrependTwice([], [], Scheduled(rules, aware, corrective));
    for i := 0 to |rules|
      invariant Scheduled(rules, aware, corrective) == Prepend(out, Scheduled(rules[i..], aware, corrective))
    {
      assert rules[i..][1..] == rules[i + 1..];
      match DueAtFor(rules[i], aware, corrective)
      case Err(e) => return Err(e);
      case Ok(due) =>
        PrependTwice(out, Started(rules[i].stage, due), Scheduled(rules[i + 1..], aware, corrective));
        if due.Some? {
          out := out + [(rules[i].stage, due.value)];
        } else {
          assert out + [] == out;
        }
    }
    assert out + [] == out;
    return Ok(out);
  }

  lemma BeforeEndOfCalendar(dt: Civil)
    requires dt.Valid()
    ensures Instant(dt) < EndOfCalendar()
  {
    IndexOfDate(dt);
    MonthStartsGrow(dt.MonthIndex(), 12 * (MAX_YEAR + 1));
    InstantGap(DayNumber(dt), dt.micros, MonthStart(12 * (MAX_YEAR + 1)), 0);
  }

  // A severe incident owes all three stages, in strictly increasing order, the
  // last of them between 28 and 31 days after awareness.  Only the end of the
  // calendar stops it.
  lemma SevereStagesIncrease(aware: Civil, corrective: Option<Stamp>)
    requires aware.Valid()
    ensures var r := Scheduled(Rules(SevereIncident), Utc(aware), corrective);
            && (r.Ok? <==> AddMonths(aware, 1).Ok?)
            && (r.Ok? ==>
              && |r.value| == 3
              && r.value[0] == (EarlyWarning, Instant(aware) + 24 * HOUR)
              && r.value[1] == (Notification, Instant(aware) + 72 * HOUR)
              && r.value[2].0 == Final
              && r.value[0].1 < r.value[1].1 < r.value[2].1
              && 28 * DAY <= r.value[2].1 - Instant(aware) <= 31 * DAY)
  {
    var rules := Rules(SevereIncident);
    ThreeRules(rules, Utc(aware), corrective);
    if AddMonths(aware, 1).Ok? {
      OneMonthElapsed(aware);
      AddMonthsIsCalendarExact(aware, 1);
      BeforeEndOfCalendar(AddMonths(aware, 1).value);
    }
  }

  lemma ThreeRules(rules: seq<StageRule>, aware: Stamp, corrective: Option<Stamp>)
    requires |rules| == 3
    ensures var d := i requires 0 <= i < 3 => DueAtFor(rules[i], aware, corrective);
            Scheduled(rules, aware, corrective) ==
            if d(0).Err? then Err(d(0).error) else if d(1).Err? then Err(d(1).error) else if d(2).Err?
              then Err(d(2).error)
            else Ok(Started(rules[0].stage, d(0).value) + Started(rules[1].stage, d(1).value)
              + Started(rules[2].stage, d(2).value))
  {
    assert rules[1..][1..] == rules[2..] && rules[2..][1..] == [];
    var d := i requires 0 <= i < 3 => DueAtFor(rules[i], aware, corrective);
    if d(0).Ok? && d(1).Ok? && d(2).Ok? {
      var a, b, c := Started(rules[0].stage, d(0).value), Started(rules[1].stage, d(1).value),
        Started(rules[2].stage, d(2).value);
      assert c + [] == c && a + (b + c) == a + b + c;
      assert Scheduled(rules[2..], aware, corrective) == Prepend(c, Ok([]));
    } else if d(0).Ok? {
      assert rules[1..][0] == rules[1] && rules[2..][0] == rules[2];
      assert Scheduled(rules[1..], aware, corrective).Err?;
    }
  }

  // An exploited vulnerability owes a final report exactly when a corrective
  // measure exists.  That report runs from its own anchor, so the three stages
  // are in increasing order exactly when the measure came less than eleven days
  // before awareness.
  lemma ExploitedStages(aware: Civil, corrective: Option<Civil>)
    requires aware.Valid() && (corrective.Some? ==> corrective.value.Valid())
    ensures var r := Scheduled(Rules(ActivelyExploited), Utc(aware),
                               if corrective.Some? then Some(Utc(corrective.value)) else None);
            (r.Ok? <==>
             Instant(aware) + 72 * HOUR < EndOfCalendar()
             && (corrective.Some? ==> Instant(corrective.value) + 14 * DAY < EndOfCalendar()))
    ensures var r := Scheduled(Rules(ActivelyExploited), Utc(aware),
                               if corrective.Some? then Some(Utc(corrective.value)) else None);
            r.Ok? ==>
              && (|r.value| == 3 <==> corrective.Some?)
              && (|r.value| == 2 <==> corrective.None?)
              && r.value[0] == (EarlyWarning, Instant(aware) + 24 * HOUR)
              && r.value[1] == (Notification, Instant(aware) + 72 * HOUR)
              && (corrective.Some? ==>
                    && r.value[2] == (Final, Instant(corrective.value) + 14 * DAY)
                    && (r.value[1].1 < r.value[2].1 <==> Instant(aware) - Instant(corrective.value) < 11 * DAY))
  {
    ThreeRules(Rules(ActivelyExploited), Utc(aware), if corrective.Some? then Some(Utc(corrective.value)) else None);
  }

  // A timestamp without a zone is refused wherever a stage would run from it.
  lemma NaiveStampsAreRefused(kind: IncidentKind, aware: Stamp, corrective: Option<Stamp>)
    ensures aware == Naive ==> Scheduled(Rules(kind), aware, corrective) == Err(NaiveTimestamp)
    ensures aware.Utc? && kind == ActivelyExploited && corrective == Some(Naive)
            && Instant(aware.at) + 72 * HOUR < EndOfCalendar() ==>
              Scheduled(Rules(kind), aware, corrective) == Err(NaiveTimestamp)
  {
    ThreeRules(Rules(kind), aware, corrective);
  }

  // An earlier awareness starts no clock later: not by an instant when the rule
  // counts hours or days, not by a calendar day when it counts months.
  lemma RuleGivesNoTime(rule: StageRule, earlier: Civil, later: Civil, corrective: Option<Stamp>)
    requires earlier.Valid() && later.Valid() && Instant(earlier) <= Instant(later)
    ensures var d, e := DueAtFor(rule, Utc(earlier), corrective), DueAtFor(rule, Utc(later), corrective);
            d.Ok? && e.Ok? ==>
              && (d.value.Some? <==> e.value.Some?)
              && (d.value.Some? ==> d.value.value / DAY <= e.value.value / DAY)
              && (d.value.Some? && rule.offset.Elapsed? ==> d.value.value <= e.value.value)
  {
    if rule.anchor.Awareness? && rule.offset.CalendarMonths? {
      var n := rule.offset.months;
      if AddMonths(earlier, n).Ok? && AddMonths(later, n).Ok? {
        InstantOrder(earlier, later);
        LaterDate(earlier, later, n);
      }
    }
  }

  // Backdating awareness never moves the hour-counted deadlines later, and
  // never moves the final deadline to a later calendar day.
  lemma BackdatingNeverGivesTime(kind: IncidentKind, earlier: Civil, later: Civil, corrective: Option<Stamp>)
    requires earlier.Valid() && later.Valid() && Instant(earlier) <= Instant(later)
    ensures var r := Scheduled(Rules(kind), Utc(earlier), corrective);
            var s := Scheduled(Rules(kind), Utc(later), corrective);
            r.Ok? && s.Ok? ==>
              && |r.value| == |s.value| >= 2
              && r.value[0].1 <= s.value[0].1 && r.value[1].1 <= s.value[1].1
              && (|r.value| == 3 ==> r.value[2].1 / DAY <= s.value[2].1 / DAY)
  {
    var rules := Rules(kind);
    ThreeRules(rules, Utc(earlier), corrective);
    ThreeRules(rules, Utc(later), corrective);
    RuleGivesNoTime(rules[0], earlier, later, corrective);
    RuleGivesNoTime(rules[1], earlier, later, corrective);
    RuleGivesNoTime(rules[2], earlier, later, corrective);
  }

  // The calendar day of an instant is its quotient by a day.
  lemma DayOfInstant(dt: Civil)
    requires dt.Valid()
    ensures Instant(dt) / DAY == DayNumber(dt)
  {
  }

  lemma LaterDate(a: Civil, b: Civil, months: int)
    requires a.Valid() && b.Valid() && a.DateLeq(b)
    requires AddMonths(a, months).Ok? && AddMonths(b, months).Ok?
    ensures Instant(AddMonths(a, months).value) / DAY <= Instant(AddMonths(b, months).value) / DAY
  {
    AddMonthsMonotoneOnDates(a, b, months);
    AddMonthsIsCalendarExact(a, months);
    AddMonthsIsCalendarExact(b, months);
    DayOrder(AddMonths(a, months).value, AddMonths(b, months).value);
    DayOfInstant(AddMonths(a, months).value);
    DayOfInstant(AddMonths(b, months).value);
  }

  // ---- status, derived and never stored ----

  datatype ObligationState = Pending | DueSoon | Overdue | Submitted | SubmittedLate | Waived

  function DueSoonWindow(stage: Stage): int {
    match stage
    case EarlyWarning => 6 * HOUR
    case Notification => 24 * HOUR
    case Final => 3 * DAY
  }

  function ObligationStateOf(due: int, submitted: Option<int>, waived: Option<string>, stage: Stage, now: int)
    : ObligationState
  {
    if waived.Some? && waived.value != "" then Waived
    else if submitted.Some? then (if submitted.value > due then SubmittedLate else Submitted)
    else if now > due then Overdue
    else if due - now <= DueSoonWindow(stage) then DueSoon
    else Pending
  }

  // The status in hours left: a waiver with a reason comes first, then a
  // submission, on time up to the deadline itself, and only then the clock.
  lemma StateExactly(due: int, submitted: Option<int>, waived: Option<string>, stage: Stage, now: int)
    ensures var state := ObligationStateOf(due, submitted, waived, stage, now);
            var soon := 3_600_000_000 * match stage case EarlyWarning => 6 case Notification => 24 case Final => 72;
            var excused := exists reason: string :: waived == Some(reason) && |reason| > 0;
            && (state == Waived <==> excused)
            && (state == Submitted <==> !excused && submitted.Some? && submitted.value <= due)
            && (state == SubmittedLate <==> !excused && submitted.Some? && due < submitted.value)
            && (state == Overdue <==> !excused && submitted.None? && due < now)
            && (state == DueSoon <==> !excused && submitted.None? && 0 <= due - now <= soon)
            && (state == Pending <==> !excused && submitted.None? && soon < due - now)
  {
    if waived.Some? && waived.value != "" {
      assert waived == Some(waived.value) && |waived.value| > 0;
    }
  }
}
