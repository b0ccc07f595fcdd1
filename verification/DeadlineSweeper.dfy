// One pass of the alert sweeper over open obligations and support periods, and
// what it writes to the notification log (src/cra/server/deadline_sweeper.py).
module DeadlineSweeper {
  import opened Ordering
  import opened Calendar
  import opened Deadlines
  import opened Escalation

  datatype Status = Unsent | Sent | Suppressed | Failed

  // `obligation` is null on support-period rows.
  datatype Row = Row(recipient: Id, product: Id, obligation: Option<Id>, kind: string, status: Status,
      sentAt: Option<int>)

  datatype Obligation = Obligation(id: Id, product: Id, stage: Stage, due: int,
                                   submitted: Option<int>, waived: Option<string>) {
    function Clock(): Clock { ReportClock(id, product, stage, due) }

    predicate Open() { submitted.None? && waived.None? }
  }

  // `tracked`: the owner's plan covers conformity, or plans are not enforced.
  datatype Product = Product(id: Id, tracked: bool, supportEnd: Option<int>)

  datatype SendOutcome = Delivered | NotConfigured | Broke

  // What the outside world contributes to one pass: the clock, each product's
  // recipients, and how the send behind the n-th log row turns out.
  datatype World = World(now: int, recipients: Id -> seq<Id>, send: nat -> SendOutcome)

  // ---- reading the log ----

  predicate About(row: Row, c: Clock) {
    match c
    case ReportClock(id, _, _, _) => row.obligation == Some(id)
    case SupportClock(p, _) => row.product == p && row.obligation.None? && IsSupportKind(row.kind)
  }

  function RowsAbout(log: seq<Row>, c: Clock): seq<Row> { Filter(log, row => About(row, c)) }

  predicate Settles(row: Row) { row.status.Sent? || row.status.Suppressed? }

  // Labels that no longer need attempting; the recipient plays no part.
  function Settled(log: seq<Row>, c: Clock): set<string> { SettledKinds(RowsAbout(log, c)) }

  function SettledKinds(rows: seq<Row>): set<string> { set row | row in rows && Settles(row) :: row.kind }

  // The query leaves an obligation out as soon as a reason is stored, and the
  // derived status only when it is not empty: they part on an empty reason alone.
  lemma EmptyWaiverDisagrees(o: Obligation, now: int)
    ensures (o.Open() <==> ObligationStateOf(o.due, o.submitted, o.waived, o.stage, now) in {Pending, DueSoon, Overdue})
            <==> !(o.submitted.None? && o.waived == Some(""))
  {
  }

  // ---- what a pass writes ----

  function OutcomeRow(c: Clock, kind: string, user: Id, outcome: SendOutcome, now: int): Row {
    Row(user, c.product, if c.ReportClock? then Some(c.obligation) else None, kind,
        match outcome case Delivered => Sent case NotConfigured => Suppressed case Broke => Failed,
        if outcome.Delivered? then Some(now) else None)
  }

  // One row per recipient, in order.
  function FannedOut(log: seq<Row>, c: Clock, kind: string, users: seq<Id>, w: World): seq<Row> {
    if users == [] then log
    else
      var n := |users| - 1;
      var before := FannedOut(log, c, kind, users[..n], w);
      before + [OutcomeRow(c, kind, users[n], w.send(|before|), w.now)]
  }

  function Attempted(log: seq<Row>, c: Clock, w: World): Option<string> { DueKind(c, w.now, Settled(log, c)) }

  function SweptClock(log: seq<Row>, c: Clock, w: World): seq<Row> {
    match Attempted(log, c, w)
    case None => log
    case Some(kind) => FannedOut(log, c, kind, w.recipients(c.product), w)
  }

  function Swept(log: seq<Row>, clocks: seq<Clock>, w: World): seq<Row> {
    if clocks == [] then log
    else var n := |clocks| - 1; SweptClock(Swept(log, clocks[..n], w), clocks[n], w)
  }

  function Entry(c: Clock, kind: Option<string>): seq<(Clock, string)> { if kind.Some? then [(c, kind.value)] else [] }

  // What a pass attempts, clock by clock, each against the log as it then is.
  function Attempts(log: seq<Row>, clocks: seq<Clock>, w: World): seq<(Clock, string)> {
    if clocks == [] then []
    else
      var n := |clocks| - 1;
      Attempts(log, clocks[..n], w) + Entry(clocks[n], Attempted(Swept(log, clocks[..n], w), clocks[n], w))
  }

  // What a dry run plans, reading one unchanged log.
  function Plan(log: seq<Row>, clocks: seq<Clock>, w: World): seq<(Clock, string)> {
    if clocks == [] then []
    else var n := |clocks| - 1; Plan(log, clocks[..n], w) + Entry(clocks[n], Attempted(log, clocks[n], w))
  }

  // ---- which clocks a pass looks at ----

  const DEFAULT_LOOKAHEAD := 8 * 24 * HOUR
  const SUPPORT_HORIZON := 180 * DAY

  function DueLeq(): (Obligation, Obligation) -> bool { (a: Obligation, b: Obligation) => a.due <= b.due }

  function NearOpen(horizon: int): Obligation -> bool { (o: Obligation) => o.Open() && o.due <= horizon }

  function ClockOf(): Obligation -> Clock { (o: Obligation) => o.Clock() }

  // Open obligations inside the lookahead, soonest first; overdue ones have no
  // lower bound.
  function OpenObligations(obs: seq<Obligation>, now: int, lookahead: int): seq<Clock> {
    Map(SortBy(Filter(obs, NearOpen(now + lookahead)), DueLeq()), ClockOf())
  }

  function SupportClockOf(p: Product): Clock {
    SupportClock(p.id, if p.supportEnd.Some? then p.supportEnd.value else 0)
  }

  function TrackedNear(horizon: int): Product -> bool {
    (p: Product) => p.supportEnd.Some? && p.supportEnd.value <= horizon && p.tracked
  }

  // Both conditions of the support query, then the plan gate.
  function SupportClocks(products: seq<Product>, horizon: int): seq<Clock> {
    Map(Filter(products, TrackedNear(horizon)), SupportClockOf)
  }

  function Visible(obs: seq<Obligation>, products: seq<Product>, now: int, lookahead: int): seq<Clock> {
    OpenObligations(obs, now, lookahead) + SupportClocks(products, now + SUPPORT_HORIZON)
  }

  // ---- what the queries return ----

  predicate SameSubject(c: Clock, d: Clock) {
    (c.ReportClock? && d.ReportClock? && c.obligation == d.obligation)
    || (c.SupportClock? && d.SupportClock? && c.product == d.product)
  }

  ghost predicate Distinct(clocks: seq<Clock>) {
    forall i, j :: 0 <= i < j < |clocks| ==> !SameSubject(clocks[i], clocks[j])
  }

  function ObligationId(): Obligation -> Id { (o: Obligation) => o.id }

  function ProductId(): Product -> Id { (p: Product) => p.id }

  // Exactly the open obligations due by the horizon, soonest first.
  ghost predicate IsDueList(clocks: seq<Clock>, obs: seq<Obligation>, horizon: int) {
    && (forall c :: c in clocks <==> exists o :: o in obs && o.Open() && o.due <= horizon && c == o.Clock())
    && (forall i, j :: 0 <= i < j < |clocks| ==> clocks[i].At() <= clocks[j].At())
  }

  // Exactly the tracked support periods ending by the horizon.
  ghost predicate IsSupportList(clocks: seq<Clock>, products: seq<Product>, horizon: int) {
    forall c :: c in clocks <==>
      exists p :: p in products && p.tracked && p.supportEnd.Some? && p.supportEnd.value <= horizon
                  && c == SupportClock(p.id, p.supportEnd.value)
  }

  lemma ObligationsListed(obs: seq<Obligation>, now: int, lookahead: int)
    ensures IsDueList(OpenObligations(obs, now, lookahead), obs, now + lookahead)
    ensures DistinctBy(obs, ObligationId()) ==> Distinct(OpenObligations(obs, now, lookahead))
  {
    var near := Filter(obs, NearOpen(now + lookahead));
    var sorted := SortBy(near, DueLeq());
    FilterMembers(obs, NearOpen(now + lookahead));
    assert Total(DueLeq()) && Transitive(DueLeq());
    SortKeepsItems(near, DueLeq());
    SortIsSorted(near, DueLeq());
    MapMembers(sorted, ClockOf());
    var clocks := Map(sorted, ClockOf());
    forall i, j | 0 <= i < j < |clocks| ensures clocks[i].At() <= clocks[j].At() {
      assert DueLeq()(sorted[i], sorted[j]);
    }
    if DistinctBy(obs, ObligationId()) {
      FilterDistinct(obs, NearOpen(now + lookahead), ObligationId());
      SortKeepsDistinct(near, DueLeq(), ObligationId());
      forall i, j | 0 <= i < j < |clocks| ensures !SameSubject(clocks[i], clocks[j]) {
        assert ObligationId()(sorted[i]) != ObligationId()(sorted[j]);
      }
    }
  }

  lemma SupportListed(products: seq<Product>, horizon: int)
    ensures IsSupportList(SupportClocks(products, horizon), products, horizon)
    ensures DistinctBy(products, ProductId()) ==> Distinct(SupportClocks(products, horizon))
  {
    var near := Filter(products, TrackedNear(horizon));
    FilterMembers(products, TrackedNear(horizon));
    MapMembers(near, SupportClockOf);
    if DistinctBy(products, ProductId()) {
      FilterDistinct(products, TrackedNear(horizon), ProductId());
      forall i, j | 0 <= i < j < |near| ensures !SameSubject(SupportClockOf(near[i]), SupportClockOf(near[j])) {
        assert ProductId()(near[i]) != ProductId()(near[j]);
      }
    }
  }

  // A pass sees exactly the obligations neither submitted nor waived that are due
  // inside the lookahead, overdue ones included, and the tracked support periods
  // that end within 180 days; and no clock twice.
  lemma VisibleExactly(obs: seq<Obligation>, products: seq<Product>, now: int, lookahead: int)
    ensures forall c :: c in Visible(obs, products, now, lookahead) <==>
              || (exists o :: o in obs && o.submitted == None && o.waived == None && o.due <= now + lookahead
                              && c == ReportClock(o.id, o.product, o.stage, o.due))
              || (exists p :: p in products && p.tracked && p.supportEnd.Some?
                              && p.supportEnd.value <= now + 180 * 86_400_000_000
                              && c == SupportClock(p.id, p.supportEnd.value))
    ensures DistinctBy(obs, ObligationId()) && DistinctBy(products, ProductId()) ==>
              Distinct(Visible(obs, products, now, lookahead))
  {
    ObligationsListed(obs, now, lookahead);
    SupportListed(products, now + SUPPORT_HORIZON);
  }

  // ---- how the sends show in the log ----

  // Among the sends behind the log positions from start to end, those that turned out so.
  function CountSends(w: World, start: nat, end: nat, outcome: SendOutcome): nat
    requires start <= end
    decreases end
  {
    if start == end then 0 else CountSends(w, start, end - 1, outcome) + if w.send(end - 1) == outcome then 1 else 0
  }

  // A row says how the send behind it turned out, and when it went out.
  ghost predicate TellsSend(row: Row, outcome: SendOutcome, now: int) {
    && (row.status == Sent <==> outcome == Delivered)
    && (row.status == Suppressed <==> outcome == NotConfigured)
    && (row.status == Failed <==> outcome == Broke)
    && row.sentAt == (if outcome == Delivered then Some(now) else None)
  }

  // A row names its clock: the product, and the obligation of a report.
  ghost predicate Names(row: Row, c: Clock) {
    row.product == c.product && row.obligation == if c.ReportClock? then Some(c.obligation) else None
  }

  lemma {:induction false} FanOutTells(log: seq<Row>, c: Clock, kind: string, users: seq<Id>, w: World)
    ensures var after := FannedOut(log, c, kind, users, w);
            && |after| == |log| + |users| && after[..|log|] == log
            && forall n :: |log| <= n < |after| ==>
                 TellsSend(after[n], w.send(n), w.now) && Names(after[n], c) && after[n].kind == kind
                 && after[n].recipient == users[n - |log|]
  {
    if users != [] {
      FanOutTells(log, c, kind, users[..|users| - 1], w);
    }
  }

  // Every row a pass adds says how its own send turned out and names a clock of
  // the pass, and no row before it is touched.
  lemma {:induction false} RowsTellTheirSends(log: seq<Row>, clocks: seq<Clock>, w: World)
    ensures var after := Swept(log, clocks, w);
            && |log| <= |after| && after[..|log|] == log
            && forall n :: |log| <= n < |after| ==>
                 TellsSend(after[n], w.send(n), w.now) && exists c :: c in clocks && Names(after[n], c)
  {
    if clocks != [] {
      var front, last := clocks[..|clocks| - 1], clocks[|clocks| - 1];
      RowsTellTheirSends(log, front, w);
      var before := Swept(log, front, w);
      if Attempted(before, last, w).Some? {
        FanOutTells(before, last, Attempted(before, last, w).value, w.recipients(last.product), w);
      }
      var after := Swept(log, clocks, w);
      assert last in clocks;
      forall n | |log| <= n < |after|
        ensures TellsSend(after[n], w.send(n), w.now) && exists c :: c in clocks && Names(after[n], c)
      {
        if n < |before| {
          assert after[n] == before[n];
          var c :| c in front && Names(before[n], c);
          assert c in clocks;
        }
      }
    }
  }

  // A label is settled for a clock exactly when some row about it with that label
  // was sent or suppressed, whoever received it.
  lemma SettledMeans(log: seq<Row>, c: Clock, kind: string)
    ensures kind in Settled(log, c) <==>
            exists row :: row in log && row.kind == kind && (row.status == Sent || row.status == Suppressed)
                          && match c
                             case ReportClock(id, _, _, _) => row.obligation == Some(id)
                             case SupportClock(p, _) =>
                               row.obligation == None && row.product == p && "eos:" <= row.kind
  {
    FilterMembers(log, row => About(row, c));
  }

  function CountStatus(rows: seq<Row>, s: Status): nat {
    if rows == [] then 0 else CountStatus(rows[..|rows| - 1], s) + if rows[|rows| - 1].status == s then 1 else 0
  }

  // Rows that tell their sends count them.
  lemma {:induction false} StatusesAreSends(before: seq<Row>, after: seq<Row>, w: World)
    requires |before| <= |after| && after[..|before|] == before
    requires forall n :: |before| <= n < |after| ==> TellsSend(after[n], w.send(n), w.now)
    ensures CountStatus(after, Sent) == CountStatus(before, Sent) + CountSends(w, |before|, |after|, Delivered)
    ensures CountStatus(after, Suppressed)
            == CountStatus(before, Suppressed) + CountSends(w, |before|, |after|, NotConfigured)
    decreases |after|
  {
    if |before| == |after| {
      assert after == before;
    } else {
      var n := |after| - 1;
      assert after[..n][..|before|] == before;
      StatusesAreSends(before, after[..n], w);
    }
  }

  lemma FannedOneMore(log: seq<Row>, c: Clock, kind: string, users: seq<Id>, i: nat, w: World)
    requires i < |users|
    ensures var before := FannedOut(log, c, kind, users[..i], w);
            var outcome := w.send(|before|);
            var after := before + [OutcomeRow(c, kind, users[i], outcome, w.now)];
            && FannedOut(log, c, kind, users[..i + 1], w) == after
            && CountStatus(after, Sent) == CountStatus(before, Sent) + (if outcome == Delivered then 1 else 0)
            && CountStatus(after, Suppressed)
               == CountStatus(before, Suppressed) + (if outcome == NotConfigured then 1 else 0)
  {
    assert users[..i + 1][..i] == users[..i];
    var before := FannedOut(log, c, kind, users[..i], w);
    var after := before + [OutcomeRow(c, kind, users[i], w.send(|before|), w.now)];
    assert after[..|after| - 1] == before;
  }

  lemma FanOutCounts(log: seq<Row>, c: Clock, kind: string, users: seq<Id>, w: World)
    ensures var after := FannedOut(log, c, kind, users, w);
            && |after| == |log| + |users|
            && CountStatus(after, Sent) == CountStatus(log, Sent) + CountSends(w, |log|, |after|, Delivered)
            && CountStatus(after, Suppressed)
               == CountStatus(log, Suppressed) + CountSends(w, |log|, |after|, NotConfigured)
  {
    FanOutTells(log, c, kind, users, w);
    StatusesAreSends(log, FannedOut(log, c, kind, users, w), w);
  }

  datatype Summary = Summary(considered: nat, sent: nat, suppressed: nat, planned: seq<(Clock, string)>)

  method Query(obs: seq<Obligation>, products: seq<Product>, now: int, lookahead: int)
    returns (first: seq<Clock>, second: seq<Clock>)
    ensures first + second == Visible(obs, products, now, lookahead)
    ensures IsDueList(first, obs, now + lookahead) && IsSupportList(second, products, now + SUPPORT_HORIZON)
    ensures DistinctBy(obs, ObligationId()) && DistinctBy(products, ProductId()) ==> Distinct(first + second)
  {
    ObligationsListed(obs, now, lookahead);
    SupportListed(products, now + SUPPORT_HORIZON);
    first, second := OpenObligations(obs, now, lookahead), SupportClocks(products, now + SUPPORT_HORIZON);
  }

  class Sweeper {
    var log: seq<Row>

    constructor ()
      ensures log == []
    {
      log := [];
    }

    // Write before send; the outcome then rewrites the row's status in place.
    method Alert(c: Clock, kind: string, user: Id, w: World) returns (outcome: SendOutcome)
      modifies this
      ensures outcome == w.send(|old(log)|)
      ensures log == old(log) + [OutcomeRow(c, kind, user, outcome, w.now)]
    {
      var n := |log|;
      log := log + [OutcomeRow(c, kind, user, Broke, w.now).(status := Unsent)];
      outcome := w.send(n);
      log := log[n := OutcomeRow(c, kind, user, outcome, w.now)];
    }

    method AlertAll(c: Clock, kind: string, users: seq<Id>, w: World) returns (sent: nat, suppressed: nat)
      modifies this
      ensures log == FannedOut(old(log), c, kind, users, w)
      ensures CountStatus(log, Sent) == CountStatus(old(log), Sent) + sent
      ensures CountStatus(log, Suppressed) == CountStatus(old(log), Suppressed) + suppressed
    {
      sent, suppressed := 0, 0;
      for i := 0 to |users|
        invariant log == FannedOut(old(log), c, kind, users[..i], w)
        invariant CountStatus(log, Sent) == CountStatus(old(log), Sent) + sent
        invariant CountStatus(log, Suppressed) == CountStatus(old(log), Suppressed) + suppressed
      {
        FannedOneMore(old(log), c, kind, users, i, w);
        var outcome := Alert(c, kind, users[i], w);
        sent := sent + if outcome.Delivered? then 1 else 0;
        suppressed := suppressed + if outcome.NotConfigured? then 1 else 0;
      }
      assert users[..|users|] == users;
    }

    // One alert per recipient; the counters are the sends that were delivered and
    // those that were not configured.
    method FanOut(c: Clock, kind: string, users: seq<Id>, w: World) returns (sent: nat, suppressed: nat)
      modifies this
      ensures log == FannedOut(old(log), c, kind, users, w) && |log| == |old(log)| + |users|
      ensures sent == CountSends(w, |old(log)|, |log|, Delivered)
      ensures suppressed == CountSends(w, |old(log)|, |log|, NotConfigured)
      ensures CountStatus(log, Sent) == CountStatus(old(log), Sent) + sent
      ensures CountStatus(log, Suppressed) == CountStatus(old(log), Suppressed) + suppressed
    {
      FanOutCounts(log, c, kind, users, w);
      sent, suppressed := AlertAll(c, kind, users, w);
    }

    method SweepClocks(clocks: seq<Clock>, w: World, dryRun: bool) returns (s: Summary)
      modifies this
      ensures dryRun ==> log == old(log) && s == Summary(|s.planned|, 0, 0, Plan(old(log), clocks, w))
      ensures !dryRun ==> log == Swept(old(log), clocks, w) && s.planned == []
      ensures !dryRun ==> s.considered == |Attempts(old(log), clocks, w)|
      ensures CountStatus(log, Sent) == CountStatus(old(log), Sent) + s.sent
      ensures CountStatus(log, Suppressed) == CountStatus(old(log), Suppressed) + s.suppressed
    {
      var considered: nat, sent: nat, suppressed: nat := 0, 0, 0;
      var planned: seq<(Clock, string)> := [];
      for i := 0 to |clocks|
        invariant dryRun ==> log == old(log) && considered == |planned| && sent == suppressed == 0
        invariant dryRun ==> planned == Plan(old(log), clocks[..i], w)
        invariant !dryRun ==> planned == [] && log == Swept(old(log), clocks[..i], w)
        invariant !dryRun ==> considered == |Attempts(old(log), clocks[..i], w)|
        invariant CountStatus(log, Sent) == CountStatus(old(log), Sent) + sent
        invariant CountStatus(log, Suppressed) == CountStatus(old(log), Suppressed) + suppressed
      {
        var c := clocks[i];
        assert clocks[..i + 1][..i] == clocks[..i];
        var kind := MostUrgentUnsent(c, w.now, Settled(log, c));
        assert kind == Attempted(log, c, w);
        if kind.None? {
          continue;
        }
        considered := considered + 1;
        if dryRun {
          planned := planned + [(c, kind.value)];
          continue;
        }
        var delivered, withheld := FanOut(c, kind.value, w.recipients(c.product), w);
        sent, suppressed := sent + delivered, suppressed + withheld;
      }
      assert clocks[..|clocks|] == clocks;
      return Summary(considered, sent, suppressed, planned);
    }

    // `sweep_once`: the obligations first, then the support periods; None when
    // the kill switch is off.
    method SweepOnce(obs: seq<Obligation>, products: seq<Product>, lookahead: int, w: World, enabled: bool,
        dryRun: bool)
      returns (reports: Option<Summary>, support: Option<Summary>)
      modifies this
      ensures reports.Some? == support.Some? == enabled
      ensures !enabled || dryRun ==> log == old(log)
      ensures enabled ==> PassOver(old(log), log, Visible(obs, products, w.now, lookahead), w, dryRun, reports.value,
              support.value)
    {
      if !enabled {
        return None, None;
      }
      var first, second := Query(obs, products, w.now, lookahead);
      var r, s := TwoPasses(first, second, w, dryRun);
      return Some(r), Some(s);
    }

    method TwoPasses(first: seq<Clock>, second: seq<Clock>, w: World, dryRun: bool) returns (r: Summary, s: Summary)
      modifies this
      ensures dryRun ==> log == old(log)
      ensures PassOver(old(log), log, first + second, w, dryRun, r, s)
    {
      SweptConcat(log, first, second, w);
      PlanConcat(log, first, second, w);
      r := SweepClocks(first, w, dryRun);
      s := SweepClocks(second, w, dryRun);
      RowsTellTheirSends(old(log), first + second, w);
      StatusesAreSends(old(log), log, w);
    }
  }

  // What one pass over these clocks does to the log and reports.
  ghost predicate PassOver(before: seq<Row>, after: seq<Row>, clocks: seq<Clock>, w: World, dryRun: bool, r: Summary,
      s: Summary) {
    && after == (if dryRun then before else Swept(before, clocks, w))
    && r.planned + s.planned == (if dryRun then Plan(before, clocks, w) else [])
    && r.considered + s.considered == (if dryRun then |Plan(before, clocks, w)| else |Attempts(before, clocks, w)|)
    && |before| <= |after|
    && r.sent + s.sent == CountSends(w, |before|, |after|, Delivered)
    && r.suppressed + s.suppressed == CountSends(w, |before|, |after|, NotConfigured)
    && CountStatus(after, Sent) == CountStatus(before, Sent) + r.sent + s.sent
    && CountStatus(after, Suppressed) == CountStatus(before, Suppressed) + r.suppressed + s.suppressed
  }

  lemma {:induction false} SweptConcat(log: seq<Row>, a: seq<Clock>, b: seq<Clock>, w: World)
    ensures Swept(log, a + b, w) == Swept(Swept(log, a, w), b, w)
    ensures Attempts(log, a + b, w) == Attempts(log, a, w) + Attempts(Swept(log, a, w), b, w)
    decreases |b|
  {
    if b == [] {
      assert a + b == a;
    } else {
      var n := |b| - 1;
      assert (a + b)[..|a + b| - 1] == a + b[..n] && (a + b)[|a + b| - 1] == b[n];
      SweptConcat(log, a, b[..n], w);
    }
  }

  lemma {:induction false} PlanConcat(log: seq<Row>, a: seq<Clock>, b: seq<Clock>, w: World)
    ensures Plan(log, a + b, w) == Plan(log, a, w) + Plan(log, b, w)
    decreases |b|
  {
    if b == [] {
      assert a + b == a;
    } else {
      var n := |b| - 1;
      assert (a + b)[..|a + b| - 1] == a + b[..n] && (a + b)[|a + b| - 1] == b[n];
      PlanConcat(log, a, b[..n], w);
    }
  }
}
