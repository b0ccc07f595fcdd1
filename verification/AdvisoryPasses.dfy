// Runs of the daily pass mixed with scans, dismissals and confirmations, seen
// from one candidate: how many passes can mail about it
// (src/cra/server/advisory_sweeper.py, src/cra/server/advisories.py).
module AdvisoryPasses {
  import opened Ordering
  import opened Matching
  import opened Advisories
  import opened AdvisoryRuns
  import opened AdvisorySweeper

  // ---- one scan, seen from one key ----

  function ForKey(s: Scan, k: CandidateKey): Finding -> bool { (f: Finding) => s.KeyOf(f) == k }

  function AsStep(s: Scan): Finding -> Step { (f: Finding) => Scanned(f, s) }

  // The scan steps a row goes through: every finding for its key, in order.
  function ScanSteps(s: Scan, fs: seq<Finding>, k: CandidateKey): seq<Step> { Map(Filter(fs, ForKey(s, k)), AsStep(s)) }

  lemma OneMoreScan(s: Scan, fs: seq<Finding>, f: Finding, k: CandidateKey)
    ensures ScanSteps(s, fs + [f], k)
            == if s.KeyOf(f) == k then ScanSteps(s, fs, k) + [Scanned(f, s)] else ScanSteps(s, fs, k)
  {
    assert (fs + [f])[..|fs|] == fs;
  }

  lemma OneMoreStep(r: Candidate, es: seq<Step>, e: Step, rule: Rule)
    ensures RowAfter(r, es + [e], rule, |es| + 1) == StepRow(RowAfter(r, es, rule, |es|), e, rule)
  {
    PrefixAgrees(r, es, [e], rule, |es|);
  }

  lemma {:induction false} DraftedRow(t: Table, s: Scan, fs: seq<Finding>, rule: Rule, k: CandidateKey)
    requires k in t
    ensures var es := ScanSteps(s, fs, k);
            k in Drafted(t, s, fs, rule).work && Drafted(t, s, fs, rule).work[k] == RowAfter(t[k], es, rule, |es|)
  {
    if fs != [] {
      var n := |fs| - 1;
      DraftedRow(t, s, fs[..n], rule, k);
      assert fs == fs[..n] + [fs[n]];
      OneMoreScan(s, fs[..n], fs[n], k);
      OneMoreStep(t[k], ScanSteps(s, fs[..n], k), Scanned(fs[n], s), rule);
    }
  }

  lemma InsertedAround(t: Table, work: Table, after: Table, pending: seq<Candidate>, k: CandidateKey)
    requires work.Keys == t.Keys && AddsRows(work, after, pending)
    ensures k in t ==> k in after && after[k] == work[k]
    ensures k !in t && k in after ==> exists p :: p in pending && p.key == k && after[k] == p
  {
    if k !in t && k in after {
      var i :| 0 <= i < |pending| && pending[i].key == k;
      assert pending[i] in pending;
    }
  }

  // A committed scan takes a stored row through its steps and starts a new one
  // from a finding.
  lemma PersistedRow(t: Table, s: Scan, fs: seq<Finding>, rule: Rule, k: CandidateKey)
    requires Persisted(t, s, fs, rule).Ok?
    ensures var after, es := Persisted(t, s, fs, rule).value.0, ScanSteps(s, fs, k);
            && (k in t ==> k in after && after[k] == RowAfter(t[k], es, rule, |es|))
            && (k !in t && k in after ==> exists f :: f in fs && s.KeyOf(f) == k && after[k] == Advisories.Fresh(s, f))
  {
    var d := Drafted(t, s, fs, rule);
    DraftedInserts(t, s, fs, rule);
    InsertsMembers(t, s, fs);
    InsertedRows(d.work, d.pending);
    InsertedAround(t, d.work, Persisted(t, s, fs, rule).value.0, d.pending, k);
    if k in t {
      DraftedRow(t, s, fs, rule, k);
    }
  }

  // ---- one product's turn, seen from one key ----

  function AboutKey(k: CandidateKey): Decision -> bool { (d: Decision) => d.key == k }

  function AsDecision(): Decision -> Step { (d: Decision) => StepOf(d) }

  function DecisionSteps(ds: seq<Decision>, k: CandidateKey): seq<Step> { Map(Filter(ds, AboutKey(k)), AsDecision()) }

  lemma OneMoreDecision(ds: seq<Decision>, d: Decision, k: CandidateKey)
    ensures DecisionSteps(ds + [d], k)
            == if d.key == k then DecisionSteps(ds, k) + [StepOf(d)] else DecisionSteps(ds, k)
  {
    assert (ds + [d])[..|ds|] == ds;
  }

  lemma {:induction false} DecidedRow(t: Table, ds: seq<Decision>, rule: Rule, k: CandidateKey)
    requires k in t
    ensures var es := DecisionSteps(ds, k);
            k in DecidedAll(t, ds) && DecidedAll(t, ds)[k] == RowAfter(t[k], es, rule, |es|)
  {
    if ds != [] {
      var n := |ds| - 1;
      DecidedRow(t, ds[..n], rule, k);
      assert ds == ds[..n] + [ds[n]];
      OneMoreDecision(ds[..n], ds[n], k);
      OneMoreStep(t[k], DecisionSteps(ds[..n], k), StepOf(ds[n]), rule);
    }
  }

  // What a turn does to a row: the findings for its key, and if the scan can be
  // trusted the decisions taken meanwhile and a notice.
  function ScanPart(t: Table, product: Id, w: World, rule: Rule, k: CandidateKey): seq<Step> {
    var o := w.scan(product);
    if o.Checked? && Persisted(t, ScanOf(product, o, w.now), o.findings, rule).Ok? then
      ScanSteps(ScanOf(product, o, w.now), o.findings, k)
    else []
  }

  function NoticePart(t: Table, product: Id, w: World, rule: Rule, k: CandidateKey): seq<Step> {
    if !Trusted(t, product, w, rule) then []
    else DecisionSteps(w.between(product), k) + if k.product == product then [NotifyStep(w.now)] else []
  }

  lemma ScannedRow(t: Table, product: Id, w: World, rule: Rule, k: CandidateKey)
    requires k in t
    ensures var es := ScanPart(t, product, w, rule, k);
            k in AfterScan(t, product, w, rule)
            && AfterScan(t, product, w, rule)[k] == RowAfter(t[k], es, rule, |es|)
  {
    var o := w.scan(product);
    if o.Checked? && Persisted(t, ScanOf(product, o, w.now), o.findings, rule).Ok? {
      PersistedRow(t, ScanOf(product, o, w.now), o.findings, rule, k);
    }
  }

  lemma StampedRow(found: Table, product: Id, now: int, rule: Rule, k: CandidateKey)
    requires k in found && found[k].key == k
    ensures Stamped(found, product, now)[k]
            == if k.product == product then StepRow(found[k], NotifyStep(now), rule) else found[k]
    ensures !AnyDue(found, product) ==> Stamped(found, product, now)[k] == found[k]
  {
  }

  lemma NoticedRow(t: Table, product: Id, w: World, rule: Rule, k: CandidateKey)
    requires var after := AfterScan(t, product, w, rule); k in after && after[k].key == k
    ensures var es, after := NoticePart(t, product, w, rule, k), AfterScan(t, product, w, rule);
            var swept := ProductSwept(State(t, []), product, w, rule, false).table;
            k in swept && swept[k] == RowAfter(after[k], es, rule, |es|)
  {
    var after := AfterScan(t, product, w, rule);
    if Trusted(t, product, w, rule) {
      var ds := DecisionSteps(w.between(product), k);
      DecidedRow(after, w.between(product), rule, k);
      Latches(after[k], ds, rule, 0, |ds|);
      StampedRow(AtNotice(t, product, w, rule), product, w.now, rule, k);
      OneMoreStep(after[k], ds, NotifyStep(w.now), rule);
      assert ds + [] == ds;
    }
  }

  // Seen from one stored row, whatever the findings, a product's turn is its
  // scan steps, then the decisions taken meanwhile, then a notice step.
  lemma PassIsRowSteps(s: State, product: Id, w: World, rule: Rule, k: CandidateKey)
    requires k in s.table && s.table[k].key == k
    ensures var es := ScanPart(s.table, product, w, rule, k) + NoticePart(s.table, product, w, rule, k);
            var swept := ProductSwept(s, product, w, rule, false).table;
            k in swept && swept[k] == RowAfter(s.table[k], es, rule, |es|) && swept[k].key == k
  {
    var scan, notice := ScanPart(s.table, product, w, rule, k), NoticePart(s.table, product, w, rule, k);
    ScannedRow(s.table, product, w, rule, k);
    Latches(s.table[k], scan, rule, 0, |scan|);
    NoticedRow(s.table, product, w, rule, k);
    AfterConcat(s.table[k], scan, notice, rule, |notice|);
    Latches(s.table[k], scan + notice, rule, 0, |scan + notice|);
  }

  // ---- nothing due is forgotten ----

  lemma {:induction false} ScansKeepDue(row: Candidate, es: seq<Step>, rule: Rule, n: nat)
    requires AwaitsNotice(row) && n <= |es| && forall i :: 0 <= i < |es| ==> es[i].Scanned?
    ensures AwaitsNotice(RowAfter(row, es, rule, n)) && RowAfter(row, es, rule, n).key == row.key
  {
    if n > 0 {
      ScansKeepDue(row, es, rule, n - 1);
    }
  }

  lemma DueStaysDue(t: Table, product: Id, w: World, rule: Rule, k: CandidateKey)
    requires k in t && Due(t[k], product)
    ensures k in AfterScan(t, product, w, rule) && Due(AfterScan(t, product, w, rule)[k], product)
  {
    ScannedRow(t, product, w, rule, k);
    ScansKeepDue(t[k], ScanPart(t, product, w, rule, k), rule, |ScanPart(t, product, w, rule, k)|);
  }

  lemma {:induction false} UndecidedStays(t: Table, ds: seq<Decision>, k: CandidateKey)
    requires k in t && forall d :: d in ds ==> d.key != k
    ensures k in DecidedAll(t, ds) && DecidedAll(t, ds)[k] == t[k]
  {
    if ds != [] {
      assert ds[|ds| - 1] in ds;
      UndecidedStays(t, ds[..|ds| - 1], k);
    }
  }

  // A due candidate nobody decides about is stamped by the next trusted turn.
  lemma DueIsTold(s: State, product: Id, w: World, rule: Rule, k: CandidateKey)
    requires k in s.table && Due(s.table[k], product) && Trusted(s.table, product, w, rule)
    requires forall d :: d in w.between(product) ==> d.key != k
    ensures var swept := ProductSwept(s, product, w, rule, false);
            && k in swept.table && swept.table[k].notifiedAt == Some(w.now)
            && swept.log == Mailed(s.log, product, w.recipients(product), w)
  {
    DueStaysDue(s.table, product, w, rule, k);
    UndecidedStays(AfterScan(s.table, product, w, rule), w.between(product), k);
    assert Due(AtNotice(s.table, product, w, rule)[k], product);
  }

  // A scan that cannot write its own record raises, but its candidates stay: the
  // table is what the record would have come with, nobody is told, and what is
  // due is told by the next trusted turn unless somebody decides about it first.
  lemma LostReceiptLosesNothing(s: State, product: Id, w: World, kept: World, rule: Rule, later: World, k: CandidateKey)
    requires w.scan(product).Checked? && !w.scan(product).receipt
    requires kept.now == w.now && kept.scan(product) == w.scan(product).(receipt := true)
    ensures var swept := ProductSwept(s, product, w, rule, false);
            && swept == State(AfterScan(s.table, product, kept, rule), s.log)
            && (k in swept.table && Due(swept.table[k], product) && Trusted(swept.table, product, later, rule)
                && (forall d :: d in later.between(product) ==> d.key != k) ==>
                  var told := ProductSwept(swept, product, later, rule, false).table;
                  k in told && told[k].notifiedAt == Some(later.now))
  {
    var swept := ProductSwept(s, product, w, rule, false);
    if k in swept.table && Due(swept.table[k], product) && Trusted(swept.table, product, later, rule)
       && forall d :: d in later.between(product) ==> d.key != k {
      DueIsTold(swept, product, later, rule, k);
    }
  }

  // ---- where a row comes from ----

  // The row went through these steps from a fresh start, noticed this often.
  ghost predicate Origin(r: Candidate, es: seq<Step>, row: Candidate, rule: Rule, told: nat) {
    && r.status.Open? && r.notifiedAt.None? && NeverFalls(r, es, rule)
    && RowAfter(r, es, rule, |es|) == row && Notices(r, es, rule, |es|) == told
  }

  ghost predicate TracedRow(row: Candidate, rule: Rule, told: nat) {
    exists r, es :: Origin(r, es, row, rule, told)
  }

  ghost predicate Traced(t: Table, rule: Rule, k: CandidateKey, told: nat) {
    if k in t then TracedRow(t[k], rule, told) else told == 0
  }

  lemma OriginThrough(r: Candidate, es: seq<Step>, row: Candidate, rule: Rule, told: nat, more: seq<Step>)
    requires Origin(r, es, row, rule, told) && NeverFalls(row, more, rule)
    ensures Origin(r, es + more, RowAfter(row, more, rule, |more|), rule, told + Notices(row, more, rule, |more|))
  {
    AfterConcat(r, es, more, rule, |more|);
    NeverFallsConcat(r, es, more, rule);
  }

  lemma TracedThrough(row: Candidate, rule: Rule, told: nat, more: seq<Step>)
    requires TracedRow(row, rule, told) && NeverFalls(row, more, rule)
    ensures TracedRow(RowAfter(row, more, rule, |more|), rule, told + Notices(row, more, rule, |more|))
  {
    var r, es :| Origin(r, es, row, rule, told);
    OriginThrough(r, es, row, rule, told, more);
  }

  lemma {:induction false} ScansTellNobody(row: Candidate, es: seq<Step>, rule: Rule, n: nat)
    requires n <= |es| && forall i :: 0 <= i < |es| ==> !es[i].NotifyStep?
    ensures Notices(row, es, rule, n) == 0
  {
    if n > 0 {
      ScansTellNobody(row, es, rule, n - 1);
    }
  }

  // ---- scores that never fall, scan by scan ----

  // Each finding for the key brings a probability, none below the stored one.
  ghost predicate Climbs(t: Table, s: Scan, fs: seq<Finding>, rule: Rule, k: CandidateKey) {
    if k in t then NeverFalls(t[k], ScanSteps(s, fs, k), rule)
    else forall f :: f in fs && s.KeyOf(f) == k && f.prob.Some? ==> 0.0 <= f.prob.value <= 1.0
  }

  ghost predicate ScanClimbs(t: Table, product: Id, w: World, rule: Rule, k: CandidateKey) {
    w.scan(product).Checked? ==> Climbs(t, ScanOf(product, w.scan(product), w.now), w.scan(product).findings, rule, k)
  }

  lemma TracedQuietly(row: Candidate, es: seq<Step>, rule: Rule, told: nat)
    requires TracedRow(row, rule, told) && NeverFalls(row, es, rule) && forall i :: 0 <= i < |es| ==> !es[i].NotifyStep?
    ensures TracedRow(RowAfter(row, es, rule, |es|), rule, told)
  {
    ScansTellNobody(row, es, rule, |es|);
    TracedThrough(row, rule, told, es);
  }

  lemma FreshIsTraced(s: Scan, f: Finding, rule: Rule)
    requires f.prob.Some? ==> 0.0 <= f.prob.value <= 1.0
    ensures TracedRow(Advisories.Fresh(s, f), rule, 0)
  {
    assert Origin(Advisories.Fresh(s, f), [], Advisories.Fresh(s, f), rule, 0);
  }

  lemma TracedPersist(t: Table, s: Scan, fs: seq<Finding>, rule: Rule, k: CandidateKey, told: nat)
    requires Traced(t, rule, k, told) && Climbs(t, s, fs, rule, k) && Persisted(t, s, fs, rule).Ok?
    ensures Traced(Persisted(t, s, fs, rule).value.0, rule, k, told)
  {
    PersistedRow(t, s, fs, rule, k);
    if k in t {
      TracedQuietly(t[k], ScanSteps(s, fs, k), rule, told);
    } else if k in Persisted(t, s, fs, rule).value.0 {
      var f :| f in fs && s.KeyOf(f) == k && Persisted(t, s, fs, rule).value.0[k] == Advisories.Fresh(s, f);
      FreshIsTraced(s, f, rule);
    }
  }

  lemma TracedScan(t: Table, product: Id, w: World, rule: Rule, k: CandidateKey, told: nat)
    requires Traced(t, rule, k, told) && ScanClimbs(t, product, w, rule, k)
    ensures Traced(AfterScan(t, product, w, rule), rule, k, told)
  {
    var o := w.scan(product);
    if o.Checked? && Persisted(t, ScanOf(product, o, w.now), o.findings, rule).Ok? {
      TracedPersist(t, ScanOf(product, o, w.now), o.findings, rule, k, told);
    }
  }

  // ---- decisions ----

  // A traced row holds a probability, so steps that scan nothing never lower it.
  lemma ScoreStays(row: Candidate, rule: Rule, told: nat, e: Step)
    requires TracedRow(row, rule, told) && !e.Scanned?
    ensures NeverFalls(row, [e], rule)
  {
    var r, es :| Origin(r, es, row, rule, told);
    ScoreInRange(r, es, rule, |es|);
  }

  lemma {:induction false} ScoreInRange(r: Candidate, es: seq<Step>, rule: Rule, n: nat)
    requires NeverFalls(r, es, rule) && n <= |es|
    ensures var row := RowAfter(r, es, rule, n); row.prob.Some? ==> 0.0 <= row.prob.value <= 1.0
  {
    if n > 0 {
      ScoreInRange(r, es, rule, n - 1);
      assert RisesAt(r, es, rule, n - 1);
    }
  }

  lemma TracedStep(row: Candidate, e: Step, rule: Rule, told: nat)
    requires TracedRow(row, rule, told) && (e.DismissStep? || e.ConfirmStep?)
    ensures TracedRow(StepRow(row, e, rule), rule, told)
  {
    ScoreStays(row, rule, told, e);
    OneMoreStep(row, [], e, rule);
    assert [] + [e] == [e];
    TracedQuietly(row, [e], rule, told);
  }

  lemma TracedDecision(t: Table, d: Decision, rule: Rule, k: CandidateKey, told: nat)
    requires Traced(t, rule, k, told)
    ensures Traced(Decided(t, d), rule, k, told)
  {
    if d.key in t && k == d.key {
      TracedStep(t[k], StepOf(d), rule, told);
    }
  }

  lemma {:induction false} TracedDecisions(t: Table, ds: seq<Decision>, rule: Rule, k: CandidateKey, told: nat)
    requires Traced(t, rule, k, told)
    ensures Traced(DecidedAll(t, ds), rule, k, told)
  {
    if ds != [] {
      TracedDecisions(t, ds[..|ds| - 1], rule, k, told);
      TracedDecision(DecidedAll(t, ds[..|ds| - 1]), ds[|ds| - 1], rule, k, told);
    }
  }

  // ---- passes ----

  // The pass mails the product's recipients with this candidate on the list.
  predicate Tells(t: Table, product: Id, w: World, rule: Rule, dryRun: bool, k: CandidateKey) {
    !dryRun && Trusted(t, product, w, rule)
    && var found := AtNotice(t, product, w, rule); k in found && Due(found[k], product)
  }

  lemma TracedFound(t: Table, product: Id, w: World, rule: Rule, k: CandidateKey, told: nat)
    requires Traced(t, rule, k, told) && ScanClimbs(t, product, w, rule, k)
    ensures Traced(AtNotice(t, product, w, rule), rule, k, told)
  {
    TracedScan(t, product, w, rule, k, told);
    TracedDecisions(AfterScan(t, product, w, rule), w.between(product), rule, k, told);
  }

  lemma StampedOnce(row: Candidate, now: int, rule: Rule)
    requires AwaitsNotice(row)
    ensures RowAfter(row, [NotifyStep(now)], rule, 1) == StepRow(row, NotifyStep(now), rule)
    ensures Notices(row, [NotifyStep(now)], rule, 1) == 1
  {
    assert RowAfter(row, [NotifyStep(now)], rule, 0) == row;
    assert NoticeAt(row, [NotifyStep(now)], rule, 0);
    assert Notices(row, [NotifyStep(now)], rule, 0) == 0;
  }

  lemma TracedNotice(row: Candidate, now: int, rule: Rule, told: nat)
    requires TracedRow(row, rule, told) && AwaitsNotice(row)
    ensures TracedRow(StepRow(row, NotifyStep(now), DEFAULT_RULE), rule, told + 1)
  {
    StampedOnce(row, now, rule);
    ScoreStays(row, rule, told, NotifyStep(now));
    TracedThrough(row, rule, told, [NotifyStep(now)]);
  }

  lemma TracedProduct(s: State, product: Id, w: World, rule: Rule, dryRun: bool, k: CandidateKey, told: nat)
    requires Traced(s.table, rule, k, told) && ScanClimbs(s.table, product, w, rule, k)
    ensures Traced(ProductSwept(s, product, w, rule, dryRun).table, rule, k,
                   told + if Tells(s.table, product, w, rule, dryRun, k) then 1 else 0)
  {
    TracedFound(s.table, product, w, rule, k, told);
    var found, swept := AtNotice(s.table, product, w, rule), ProductSwept(s, product, w, rule, dryRun).table;
    if Tells(s.table, product, w, rule, dryRun, k) {
      assert AnyDue(found, product);
      TracedNotice(found[k], w.now, rule, told);
    } else if k in found {
      assert swept[k] == found[k];
    }
  }

  predicate TurnTells(t: Table, p: Product, w: World, rule: Rule, dryRun: bool, k: CandidateKey) {
    p.entitled && Tells(t, p.id, w, rule, dryRun, k)
  }

  // How many products of a pass tell about the candidate.
  function Tellings(s: State, products: seq<Product>, w: World, rule: Rule, dryRun: bool, k: CandidateKey): nat {
    if products == [] then 0
    else
      var n := |products| - 1;
      Tellings(s, products[..n], w, rule, dryRun, k)
      + if TurnTells(AllSwept(s, products[..n], w, rule, dryRun).table, products[n], w, rule, dryRun, k) then 1 else 0
  }

  ghost predicate PassClimbs(s: State, products: seq<Product>, w: World, rule: Rule, dryRun: bool, k: CandidateKey) {
    forall n :: 0 <= n < |products| && products[n].entitled ==>
      ScanClimbs(AllSwept(s, products[..n], w, rule, dryRun).table, products[n].id, w, rule, k)
  }

  lemma ClimbsFront(s: State, products: seq<Product>, w: World, rule: Rule, dryRun: bool, k: CandidateKey)
    requires products != [] && PassClimbs(s, products, w, rule, dryRun, k)
    ensures PassClimbs(s, products[..|products| - 1], w, rule, dryRun, k)
  {
    var front := products[..|products| - 1];
    forall m | 0 <= m < |front| && front[m].entitled
      ensures ScanClimbs(AllSwept(s, front[..m], w, rule, dryRun).table, front[m].id, w, rule, k)
    {
      assert front[..m] == products[..m];
    }
  }

  lemma TracedTurn(s: State, p: Product, w: World, rule: Rule, dryRun: bool, k: CandidateKey, told: nat)
    requires Traced(s.table, rule, k, told) && (p.entitled ==> ScanClimbs(s.table, p.id, w, rule, k))
    ensures Traced(Turn(s, p, w, rule, dryRun).table, rule, k,
                   told + if TurnTells(s.table, p, w, rule, dryRun, k) then 1 else 0)
  {
    if p.entitled {
      TracedProduct(s, p.id, w, rule, dryRun, k, told);
    }
  }

  lemma {:induction false} TracedPass(s: State, products: seq<Product>, w: World, rule: Rule, dryRun: bool,
                                      k: CandidateKey, told: nat)
    requires Traced(s.table, rule, k, told) && PassClimbs(s, products, w, rule, dryRun, k)
    ensures Traced(AllSwept(s, products, w, rule, dryRun).table, rule, k,
            told + Tellings(s, products, w, rule, dryRun, k))
  {
    if products != [] {
      var front, last := products[..|products| - 1], products[|products| - 1];
      ClimbsFront(s, products, w, rule, dryRun, k);
      TracedPass(s, front, w, rule, dryRun, k, told);
      assert products[..|front|] == front;
      TracedTurn(AllSwept(s, front, w, rule, dryRun), last, w, rule, dryRun, k,
                 told + Tellings(s, front, w, rule, dryRun, k));
    }
  }

  // ---- what the sends decide ----

  lemma TurnIgnoresSends(s: State, u: State, p: Product, w: World, f: nat -> SendOutcome, rule: Rule, dryRun: bool,
                         k: CandidateKey)
    requires s.table == u.table
    ensures Turn(s, p, w, rule, dryRun).table == Turn(u, p, w.(send := f), rule, dryRun).table
    ensures TurnTells(s.table, p, w, rule, dryRun, k) <==> TurnTells(u.table, p, w.(send := f), rule, dryRun, k)
  {
    var v := w.(send := f);
    assert AfterScan(s.table, p.id, w, rule) == AfterScan(u.table, p.id, v, rule);
    assert Trusted(s.table, p.id, w, rule) <==> Trusted(u.table, p.id, v, rule);
  }

  // Whether a mail went out leaves no trace in the table, so the same candidates
  // are told about, and stamped, however the sends fare.
  lemma {:induction false} SendsDecideNothing(s: State, u: State, products: seq<Product>, w: World,
                                              f: nat -> SendOutcome, rule: Rule, dryRun: bool, k: CandidateKey)
    requires s.table == u.table
    ensures AllSwept(s, products, w, rule, dryRun).table == AllSwept(u, products, w.(send := f), rule, dryRun).table
    ensures Tellings(s, products, w, rule, dryRun, k) == Tellings(u, products, w.(send := f), rule, dryRun, k)
  {
    if products != [] {
      var front, last := products[..|products| - 1], products[|products| - 1];
      SendsDecideNothing(s, u, front, w, f, rule, dryRun, k);
      TurnIgnoresSends(AllSwept(s, front, w, rule, dryRun), AllSwept(u, front, w.(send := f), rule, dryRun), last,
                       w, f, rule, dryRun, k);
    }
  }

  lemma {:induction false} ReopenResetsStamp(row: Candidate, es: seq<Step>, rule: Rule, n: nat) returns (m: nat)
    requires row.exploited && row.notifiedAt.Some? && n <= |es| && RowAfter(row, es, rule, n).notifiedAt.None?
    ensures m < n && EpssReopen(row, es, rule, m)
  {
    Latches(row, es, rule, 0, n - 1);
    if RowAfter(row, es, rule, n - 1).notifiedAt.None? {
      m := ReopenResetsStamp(row, es, rule, n - 1);
    } else {
      m := n - 1;
    }
  }

  lemma {:induction false} DecisionsKeepStamps(t: Table, ds: seq<Decision>, k: CandidateKey)
    requires k in t
    ensures k in DecidedAll(t, ds) && DecidedAll(t, ds)[k].notifiedAt == t[k].notifiedAt
  {
    if ds != [] {
      DecisionsKeepStamps(t, ds[..|ds| - 1], k);
    }
  }

  lemma {:induction false} BrokenMails(log: seq<Mail>, product: Id, users: seq<Id>, w: World)
    requires forall i :: w.send(i).Broke?
    ensures |Mailed(log, product, users, w)| == |log| + |users| && log <= Mailed(log, product, users, w)
    ensures forall i :: |log| <= i < |log| + |users| ==> Mailed(log, product, users, w)[i].status.Failed?
  {
    if users != [] {
      BrokenMails(log, product, users[..|users| - 1], w);
    }
  }

  // A turn whose every send broke still counts as having told: the row is
  // stamped, and the product's next wet turn tells about the candidate only if
  // an EPSS rise has re-opened it since.
  lemma FailedSendsAreNotRetried(s: State, product: Id, w: World, later: World, rule: Rule, k: CandidateKey)
    requires Tells(s.table, product, w, rule, false, k) && forall i :: w.send(i).Broke?
    ensures var swept := ProductSwept(s, product, w, rule, false);
            && k in swept.table && swept.table[k].notifiedAt == Some(w.now)
            && |swept.log| == |s.log| + |w.recipients(product)|
            && (forall i :: |s.log| <= i < |swept.log| ==> swept.log[i].status.Failed?)
            && (Tells(swept.table, product, later, rule, false, k) ==>
                  var es := ScanPart(swept.table, product, later, rule, k);
                  exists m :: 0 <= m < |es| && EpssReopen(swept.table[k], es, rule, m))
  {
    var t := ProductSwept(s, product, w, rule, false).table;
    assert AnyDue(AtNotice(s.table, product, w, rule), product);
    BrokenMails(s.log, product, w.recipients(product), w);
    if Tells(t, product, later, rule, false, k) {
      var es := ScanPart(t, product, later, rule, k);
      ScannedRow(t, product, later, rule, k);
      DecisionsKeepStamps(AfterScan(t, product, later, rule), later.between(product), k);
      var m := ReopenResetsStamp(t[k], es, rule, |es|);
    }
  }

  // ---- runs ----

  datatype Event =
    | PassEvent(products: seq<Product>, world: World, dryRun: bool)
    | ScanEvent(product: Id, world: World)
    | DecisionEvent(decision: Decision)

  function Happened(s: State, e: Event, rule: Rule): State {
    match e
    case PassEvent(products, w, dryRun) => AllSwept(s, products, w, rule, dryRun)
    case ScanEvent(product, w) => State(AfterScan(s.table, product, w, rule), s.log)
    case DecisionEvent(d) => State(Decided(s.table, d), s.log)
  }

  function After(s: State, es: seq<Event>, rule: Rule): State {
    if es == [] then s else Happened(After(s, es[..|es| - 1], rule), es[|es| - 1], rule)
  }

  function TellingsOf(s: State, e: Event, rule: Rule, k: CandidateKey): nat {
    if e.PassEvent? then Tellings(s, e.products, e.world, rule, e.dryRun, k) else 0
  }

  // The passes of a run that told anybody about the candidate.
  function NotifyingPasses(s: State, es: seq<Event>, rule: Rule, k: CandidateKey): nat {
    if es == [] then 0
    else
      var n := |es| - 1;
      NotifyingPasses(s, es[..n], rule, k) + if TellingsOf(After(s, es[..n], rule), es[n], rule, k) > 0 then 1 else 0
  }

  ghost predicate EventClimbs(s: State, e: Event, rule: Rule, k: CandidateKey) {
    match e
    case PassEvent(products, w, dryRun) => PassClimbs(s, products, w, rule, dryRun, k)
    case ScanEvent(product, w) => ScanClimbs(s.table, product, w, rule, k)
    case _ => true
  }

  // No scan of the run brings the candidate a lower score than it holds.
  ghost predicate RunClimbs(s: State, es: seq<Event>, rule: Rule, k: CandidateKey) {
    forall n :: 0 <= n < |es| ==> EventClimbs(After(s, es[..n], rule), es[n], rule, k)
  }

  lemma TracedEvent(s: State, e: Event, rule: Rule, k: CandidateKey, told: nat)
    requires Traced(s.table, rule, k, told) && EventClimbs(s, e, rule, k)
    ensures Traced(Happened(s, e, rule).table, rule, k, told + TellingsOf(s, e, rule, k))
  {
    match e
    case PassEvent(products, w, dryRun) => TracedPass(s, products, w, rule, dryRun, k, told);
    case ScanEvent(product, w) => TracedScan(s.table, product, w, rule, k, told);
    case DecisionEvent(d) => TracedDecision(s.table, d, rule, k, told);
  }

  lemma RunClimbsFront(s: State, es: seq<Event>, rule: Rule, k: CandidateKey)
    requires es != [] && RunClimbs(s, es, rule, k)
    ensures RunClimbs(s, es[..|es| - 1], rule, k)
  {
    var front := es[..|es| - 1];
    forall m | 0 <= m < |front| ensures EventClimbs(After(s, front[..m], rule), front[m], rule, k) {
      assert front[..m] == es[..m];
    }
  }

  lemma {:induction false} TracedRun(s: State, es: seq<Event>, rule: Rule, k: CandidateKey) returns (told: nat)
    requires Traced(s.table, rule, k, 0) && RunClimbs(s, es, rule, k)
    ensures Traced(After(s, es, rule).table, rule, k, told) && NotifyingPasses(s, es, rule, k) <= told
  {
    told := 0;
    if es != [] {
      var front, last := es[..|es| - 1], es[|es| - 1];
      RunClimbsFront(s, es, rule, k);
      told := TracedRun(s, front, rule, k);
      TracedEvent(After(s, front, rule), last, rule, k, told);
      told := told + TellingsOf(After(s, front, rule), last, rule, k);
    }
  }

  // Whatever scans, decisions and passes follow, while its score never falls at
  // most six passes ever mail about a candidate that was not there at the start,
  // or was there open and untold.
  lemma AtMostSixPasses(s: State, es: seq<Event>, k: CandidateKey)
    requires RunClimbs(s, es, DEFAULT_RULE, k)
    requires k in s.table ==>
               s.table[k].status.Open? && s.table[k].notifiedAt.None?
               && (s.table[k].prob.Some? ==> 0.0 <= s.table[k].prob.value <= 1.0)
    ensures NotifyingPasses(s, es, DEFAULT_RULE, k) <= 6
  {
    if k in s.table {
      assert Origin(s.table[k], [], s.table[k], DEFAULT_RULE, 0);
    }
    var told := TracedRun(s, es, DEFAULT_RULE, k);
    if k in After(s, es, DEFAULT_RULE).table {
      var r, steps :| Origin(r, steps, After(s, es, DEFAULT_RULE).table[k], DEFAULT_RULE, told);
      AtMostSixNotices(r, steps, |steps|);
    }
  }
}
