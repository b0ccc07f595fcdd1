// The daily pass: scan every entitled product, and mail each exploited
// candidate once (src/cra/server/advisory_sweeper.py).
module AdvisorySweeper {
  import opened Ordering
  import opened Matching
  import opened Advisories
  import opened AdvisoryRuns

  // `receipt`: whether the scan's own record could be written once its
  // candidates were committed; when it could not, the scan still raises.
  datatype ScanOutcome =
    | Raised
    | NotScanned
    | Checked(findings: seq<Finding>, provenance: Option<string>, sourcesOk: bool, receipt: bool)

  datatype SendOutcome = Delivered | NotConfigured | Broke

  datatype MailStatus = Sent | Suppressed | Failed

  datatype Mail = Mail(recipient: Id, product: Id, status: MailStatus, sentAt: Option<int>)

  datatype Decision = Dismissal(key: CandidateKey) | Confirmation(key: CandidateKey)

  // `between`: what somebody decides after a product's scan has committed and
  // before its notices are.
  datatype World = World(now: int, scan: Id -> ScanOutcome, between: Id -> seq<Decision>,
                         recipients: Id -> seq<Id>, send: nat -> SendOutcome)

  datatype Product = Product(id: Id, entitled: bool)

  // ---- one product ----

  predicate Due(row: Candidate, product: Id) { row.key.product == product && AwaitsNotice(row) }

  // Every exploited, open, unnotified row of the product, stamped.
  function Stamped(t: Table, product: Id, now: int): Table {
    map k | k in t :: if Due(t[k], product) then StepRow(t[k], NotifyStep(now), DEFAULT_RULE) else t[k]
  }

  predicate AnyDue(t: Table, product: Id) { exists k :: k in t && Due(t[k], product) }

  function MailRow(user: Id, product: Id, outcome: SendOutcome, now: int): Mail {
    Mail(user, product, match outcome case Delivered => Sent case NotConfigured => Suppressed case Broke => Failed,
         if outcome.Delivered? then Some(now) else None)
  }

  function Mailed(log: seq<Mail>, product: Id, users: seq<Id>, w: World): seq<Mail> {
    if users == [] then log
    else
      var n := |users| - 1;
      var before := Mailed(log, product, users[..n], w);
      before + [MailRow(users[n], product, w.send(|before|), w.now)]
  }

  function ScanOf(product: Id, o: ScanOutcome, now: int): Scan
    requires o.Checked?
  {
    Scan(product, o.provenance, now)
  }

  function StepOf(d: Decision): Step { if d.Dismissal? then DismissStep else ConfirmStep }

  function Decided(t: Table, d: Decision): Table {
    if d.key in t then t[d.key := StepRow(t[d.key], StepOf(d), DEFAULT_RULE)] else t
  }

  function DecidedAll(t: Table, ds: seq<Decision>): Table {
    if ds == [] then t else Decided(DecidedAll(t, ds[..|ds| - 1]), ds[|ds| - 1])
  }

  // The table once the scan has committed; only a scan that raised before its
  // commit changes nothing.
  function AfterScan(t: Table, product: Id, w: World, rule: Rule): Table {
    var o := w.scan(product);
    if !o.Checked? then t
    else match Persisted(t, ScanOf(product, o, w.now), o.findings, rule) case Ok((after, _)) => after case Err(_) => t
  }

  // Only a scan that returned and whose sources all answered may notify anybody.
  predicate Trusted(t: Table, product: Id, w: World, rule: Rule) {
    var o := w.scan(product);
    o.Checked? && o.sourcesOk && o.receipt && Persisted(t, ScanOf(product, o, w.now), o.findings, rule).Ok?
  }

  // The table the notice's transaction finds.
  function AtNotice(t: Table, product: Id, w: World, rule: Rule): Table {
    var after := AfterScan(t, product, w, rule);
    if Trusted(t, product, w, rule) then DecidedAll(after, w.between(product)) else after
  }

  predicate Notifies(t: Table, product: Id, w: World, rule: Rule) {
    Trusted(t, product, w, rule) && AnyDue(AtNotice(t, product, w, rule), product)
  }

  datatype State = State(table: Table, log: seq<Mail>)

  function ProductSwept(s: State, product: Id, w: World, rule: Rule, dryRun: bool): State {
    var found := AtNotice(s.table, product, w, rule);
    if dryRun || !Notifies(s.table, product, w, rule) then State(found, s.log)
    else State(Stamped(found, product, w.now), Mailed(s.log, product, w.recipients(product), w))
  }

  // An unentitled product is passed over.
  function Turn(s: State, p: Product, w: World, rule: Rule, dryRun: bool): State {
    if p.entitled then ProductSwept(s, p.id, w, rule, dryRun) else s
  }

  function AllSwept(s: State, products: seq<Product>, w: World, rule: Rule, dryRun: bool): State {
    if products == [] then s
    else
      var n := |products| - 1;
      Turn(AllSwept(s, products[..n], w, rule, dryRun), products[n], w, rule, dryRun)
  }

  function Wears(status: MailStatus): Mail -> bool { (m: Mail) => m.status == status }

  lemma OneMoreMail(log: seq<Mail>, start: nat, mail: Mail, status: MailStatus)
    requires start <= |log|
    ensures |Filter((log + [mail])[start..], Wears(status))|
            == |Filter(log[start..], Wears(status))| + if mail.status == status then 1 else 0
  {
    assert (log + [mail])[start..] == log[start..] + [mail];
    assert (log[start..] + [mail])[..|log[start..]|] == log[start..];
  }

  class Sweeper {
    const candidates: Candidates
    const rule: Rule
    var log: seq<Mail>

    constructor (candidates: Candidates, rule: Rule)
      ensures this.candidates == candidates && this.rule == rule && log == []
    {
      this.candidates := candidates;
      this.rule := rule;
      log := [];
    }

    method SendAll(product: Id, users: seq<Id>, w: World) returns (sent: nat, suppressed: nat)
      modifies this`log
      ensures log == Mailed(old(log), product, users, w) && |log| == |old(log)| + |users|
      ensures sent == |Filter(log[|old(log)|..], Wears(Sent))|
      ensures suppressed == |Filter(log[|old(log)|..], Wears(Suppressed))|
    {
      sent, suppressed := 0, 0;
      for i := 0 to |users|
        invariant log == Mailed(old(log), product, users[..i], w) && |log| == |old(log)| + i
        invariant sent == |Filter(log[|old(log)|..], Wears(Sent))|
        invariant suppressed == |Filter(log[|old(log)|..], Wears(Suppressed))|
      {
        assert users[..i + 1][..i] == users[..i];
        var outcome := w.send(|log|);
        var entry := MailRow(users[i], product, outcome, w.now);
        OneMoreMail(log, |old(log)|, entry, Sent);
        OneMoreMail(log, |old(log)|, entry, Suppressed);
        log := log + [entry];
        match outcome {
          case Delivered => sent := sent + 1;
          case NotConfigured => suppressed := suppressed + 1;
          case Broke =>
        }
      }
      assert users[..|users|] == users;
    }

    method StampAll(product: Id, now: int)
      modifies candidates
      ensures candidates.rows == Stamped(old(candidates.rows), product, now)
    {
      var due := set k | k in candidates.rows && Due(candidates.rows[k], product);
      while due != {}
        invariant candidates.rows.Keys == old(candidates.rows).Keys
        invariant forall k :: k in due ==> k in candidates.rows && Due(old(candidates.rows)[k], product)
        invariant forall k :: k in candidates.rows && (k in due || !Due(old(candidates.rows)[k], product)) ==>
                    candidates.rows[k] == old(candidates.rows)[k]
        invariant forall k :: k in candidates.rows && k !in due && Due(old(candidates.rows)[k], product) ==>
                    candidates.rows[k] == old(candidates.rows)[k].(notifiedAt := Some(now))
        decreases |due|
      {
        var k :| k in due;
        due := due - {k};
        candidates.rows := candidates.rows[k := candidates.rows[k].(notifiedAt := Some(now))];
      }
    }

    // The transactions of other people on the same rows.
    method OthersDecide(ds: seq<Decision>)
      modifies candidates
      ensures candidates.rows == DecidedAll(old(candidates.rows), ds)
    {
      for i := 0 to |ds|
        invariant candidates.rows == DecidedAll(old(candidates.rows), ds[..i])
      {
        assert ds[..i + 1][..i] == ds[..i];
        match ds[i] {
          case Dismissal(key) => var _ := candidates.Dismiss(key);
          case Confirmation(key) =>
            if key in candidates.rows {
              candidates.CommitConfirm(key);
            }
        }
      }
      assert ds[..|ds|] == ds;
    }

    method SweepProduct(product: Id, w: World, dryRun: bool)
      returns (scanned: bool, failed: bool, sent: nat, suppressed: nat)
      modifies this`log, candidates
      ensures State(candidates.rows, log) == ProductSwept(old(State(candidates.rows, log)), product, w, rule, dryRun)
      ensures scanned ==> !failed && w.scan(product).Checked?
      ensures failed <==> w.scan(product).Raised? || (w.scan(product).Checked? && !scanned)
      ensures sent + suppressed > 0 ==> !dryRun && Notifies(old(candidates.rows), product, w, rule)
    {
      scanned, failed, sent, suppressed := false, false, 0, 0;
      var o := w.scan(product);
      if o.Raised? {
        return false, true, 0, 0;
      }
      if o.NotScanned? {
        return;
      }
      var r := candidates.Persist(ScanOf(product, o, w.now), o.findings, rule);
      if r.Err? {
        return false, true, 0, 0;
      }
      if !o.receipt {
        return false, true, 0, 0;
      }
      scanned := true;
      if !o.sourcesOk {
        return;
      }
      OthersDecide(w.between(product));
      var due := set k | k in candidates.rows && Due(candidates.rows[k], product);
      if due == {} || dryRun {
        assert due == {} ==> forall k :: k in candidates.rows ==> k !in due;
        return;
      }
      assert exists k :: k in due;
      sent, suppressed := SendAll(product, w.recipients(product), w);
      StampAll(product, w.now);
    }

    // `sweep_once`: unentitled products are counted, never swept.
    method SweepOnce(products: seq<Product>, w: World, enabled: bool, scanning: bool, dryRun: bool)
      returns (scanned: nat, sent: nat, suppressed: nat, failed: nat, skipped: nat)
      modifies this`log, candidates
      ensures !enabled || !scanning ==> State(candidates.rows, log) == old(State(candidates.rows, log))
      ensures enabled && scanning ==>
                && State(candidates.rows, log) == AllSwept(old(State(candidates.rows, log)), products, w, rule, dryRun)
                && skipped == |Filter(products, (p: Product) => !p.entitled)|
                && scanned + failed <= |products| - skipped
    {
      scanned, sent, suppressed, failed, skipped := 0, 0, 0, 0, 0;
      if !enabled || !scanning {
        return;
      }
      for i := 0 to |products|
        invariant State(candidates.rows, log)
                  == AllSwept(old(State(candidates.rows, log)), products[..i], w, rule, dryRun)
        invariant skipped == |Filter(products[..i], (p: Product) => !p.entitled)|
        invariant scanned + failed + skipped <= i
      {
        assert products[..i + 1][..i] == products[..i];
        if !products[i].entitled {
          skipped := skipped + 1;
          continue;
        }
        var ok, bad, s, n := SweepProduct(products[i].id, w, dryRun);
        scanned, failed := scanned + (if ok then 1 else 0), failed + if bad then 1 else 0;
        sent, suppressed := sent + s, suppressed + n;
      }
      assert products[..|products|] == products;
    }
  }

  // ---- what a pass means for each candidate ----

  // A decision moves the row it names and no other: a dismissal pins the scores
  // and spares a confirmed row, a confirmation only confirms.
  lemma DecisionExactly(t: Table, d: Decision, k: CandidateKey)
    ensures Decided(t, d).Keys == t.Keys
    ensures k in t && k != d.key ==> Decided(t, d)[k] == t[k]
    ensures k in t && k == d.key ==>
              var row, next := t[k], Decided(t, d)[k];
              && (d.Confirmation? ==> next == row.(status := Confirmed))
              && (d.Dismissal? && row.status != Confirmed ==>
                    next == row.(status := Dismissed, probAt := row.prob, pctAt := row.pct))
              && (d.Dismissal? && row.status == Confirmed ==> next == row)
  {
  }

  // A mail says how the send behind it turned out, to whom and about which product.
  ghost predicate TellsSend(mail: Mail, outcome: SendOutcome, now: int) {
    && (mail.status == Sent <==> outcome == Delivered)
    && (mail.status == Suppressed <==> outcome == NotConfigured)
    && (mail.status == Failed <==> outcome == Broke)
    && mail.sentAt == (if outcome == Delivered then Some(now) else None)
  }

  lemma {:induction false} MailsTellTheirSends(log: seq<Mail>, product: Id, users: seq<Id>, w: World)
    ensures var after := Mailed(log, product, users, w);
            && |after| == |log| + |users| && after[..|log|] == log
            && forall n :: |log| <= n < |after| ==>
                 TellsSend(after[n], w.send(n), w.now) && after[n].product == product
                 && after[n].recipient == users[n - |log|]
  {
    if users != [] {
      MailsTellTheirSends(log, product, users[..|users| - 1], w);
    }
  }

  // The product's rows that are open, exploited and not told about.
  ghost function Owed(t: Table, product: Id): set<CandidateKey> {
    set k | k in t && t[k].key.product == product && t[k].status == Open && t[k].exploited && t[k].notifiedAt == None
  }

  lemma AnyDueExactly(t: Table, product: Id)
    ensures AnyDue(t, product) <==> Owed(t, product) != {}
  {
    if k :| k in Owed(t, product) {
      assert Due(t[k], product);
    }
    if AnyDue(t, product) {
      var k :| k in t && Due(t[k], product);
      assert k in Owed(t, product);
    }
  }

  // A wet turn mails everybody exactly when the scan returned with every source
  // answering and the notice finds a row it owes; it stamps those rows and
  // touches no other.
  lemma TurnExactly(s: State, product: Id, w: World, rule: Rule)
    ensures var o, found := w.scan(product), AtNotice(s.table, product, w, rule);
            var after := ProductSwept(s, product, w, rule, false);
            var mails := o.Checked? && o.sourcesOk && o.receipt
                         && Persisted(s.table, Scan(product, o.provenance, w.now), o.findings, rule).Ok?
                         && Owed(found, product) != {};
            && |after.log| == |s.log| + (if mails then |w.recipients(product)| else 0)
            && after.log[..|s.log|] == s.log && after.table.Keys == found.Keys
            && forall k :: k in found ==>
                 after.table[k]
                 == if mails && k in Owed(found, product) then found[k].(notifiedAt := Some(w.now)) else found[k]
  {
    MailsTellTheirSends(s.log, product, w.recipients(product), w);
    AnyDueExactly(AtNotice(s.table, product, w, rule), product);
  }

  // After a trusted pass nothing exploited and open is left untold, and a scan
  // whose sources failed, or that lost its receipt, tells nobody anything.
  lemma NothingLeftUntold(s: State, product: Id, w: World, rule: Rule)
    ensures Trusted(s.table, product, w, rule) ==> !AnyDue(ProductSwept(s, product, w, rule, false).table, product)
    ensures !Trusted(s.table, product, w, rule) ==>
              ProductSwept(s, product, w, rule, false) == State(AfterScan(s.table, product, w, rule), s.log)
  {
  }

  // A pass does what it would over the entitled products alone.
  lemma {:induction false} OnlyTheEntitledAreSwept(s: State, products: seq<Product>, w: World, rule: Rule, dryRun: bool)
    ensures AllSwept(s, products, w, rule, dryRun)
            == AllSwept(s, Filter(products, (p: Product) => p.entitled), w, rule, dryRun)
  {
    if products != [] {
      var front, last := products[..|products| - 1], products[|products| - 1];
      OnlyTheEntitledAreSwept(s, front, w, rule, dryRun);
      var kept := Filter(front, (p: Product) => p.entitled);
      assert (kept + [last])[..|kept|] == kept && kept + [] == kept;
    }
  }

  // ---- what a dry run leaves behind ----

  function Unstamped(row: Candidate): Candidate { row.(notifiedAt := None) }

  // The same candidates in all but when anybody was told.
  ghost predicate SameButStamps(t: Table, u: Table) {
    t.Keys == u.Keys && forall k :: k in t ==> Unstamped(t[k]) == Unstamped(u[k])
  }

  lemma RefreshedAlike(row: Candidate, other: Candidate, f: Finding, s: Scan, rule: Rule)
    requires Unstamped(row) == Unstamped(other)
    ensures Unstamped(Refreshed(row, f, s, rule)) == Unstamped(Refreshed(other, f, s, rule))
  {
  }

  lemma PutAlike(t: Table, u: Table, k: CandidateKey, row: Candidate, other: Candidate)
    requires SameButStamps(t, u) && Unstamped(row) == Unstamped(other)
    ensures SameButStamps(t[k := row], u[k := other])
  {
  }

  lemma DraftStepAlike(d: Draft, e: Draft, s: Scan, f: Finding, rule: Rule)
    requires SameButStamps(d.work, e.work) && d.pending == e.pending
    ensures SameButStamps(DraftStep(d, s, f, rule).work, DraftStep(e, s, f, rule).work)
    ensures DraftStep(d, s, f, rule).pending == DraftStep(e, s, f, rule).pending
  {
    var k := s.KeyOf(f);
    assert k in d.work <==> k in e.work;
    if k in d.work {
      RefreshedAlike(d.work[k], e.work[k], f, s, rule);
      PutAlike(d.work, e.work, k, Refreshed(d.work[k], f, s, rule), Refreshed(e.work[k], f, s, rule));
    }
  }

  lemma {:induction false} DraftedAlike(t: Table, u: Table, s: Scan, fs: seq<Finding>, rule: Rule)
    requires SameButStamps(t, u)
    ensures SameButStamps(Drafted(t, s, fs, rule).work, Drafted(u, s, fs, rule).work)
    ensures Drafted(t, s, fs, rule).pending == Drafted(u, s, fs, rule).pending
  {
    if fs != [] {
      var front, last := fs[..|fs| - 1], fs[|fs| - 1];
      DraftedAlike(t, u, s, front, rule);
      DraftStepAlike(Drafted(t, s, front, rule), Drafted(u, s, front, rule), s, last, rule);
    }
  }

  lemma {:induction false} InsertedAlike(t: Table, u: Table, pending: seq<Candidate>)
    requires SameButStamps(t, u)
    ensures Inserted(t, pending).Ok? <==> Inserted(u, pending).Ok?
    ensures Inserted(t, pending).Ok? ==> SameButStamps(Inserted(t, pending).value, Inserted(u, pending).value)
  {
    if pending != [] {
      InsertedAlike(t, u, pending[..|pending| - 1]);
    }
  }

  lemma {:induction false} DecidedAlike(t: Table, u: Table, ds: seq<Decision>)
    requires SameButStamps(t, u)
    ensures SameButStamps(DecidedAll(t, ds), DecidedAll(u, ds))
  {
    if ds != [] {
      DecidedAlike(t, u, ds[..|ds| - 1]);
    }
  }

  lemma FoundAlike(t: Table, u: Table, product: Id, w: World, rule: Rule)
    requires SameButStamps(t, u)
    ensures SameButStamps(AtNotice(t, product, w, rule), AtNotice(u, product, w, rule))
  {
    var o := w.scan(product);
    if o.Checked? {
      var s := ScanOf(product, o, w.now);
      DraftedAlike(t, u, s, o.findings, rule);
      InsertedAlike(Drafted(t, s, o.findings, rule).work, Drafted(u, s, o.findings, rule).work,
                    Drafted(t, s, o.findings, rule).pending);
    }
    DecidedAlike(AfterScan(t, product, w, rule), AfterScan(u, product, w, rule), w.between(product));
  }

  lemma StampedAlike(t: Table, u: Table, product: Id, now: int)
    requires SameButStamps(t, u)
    ensures SameButStamps(t, Stamped(u, product, now))
  {
  }

  lemma ProductSweptAlike(s: State, v: State, product: Id, w: World, rule: Rule)
    requires SameButStamps(s.table, v.table)
    ensures SameButStamps(ProductSwept(s, product, w, rule, true).table, ProductSwept(v, product, w, rule, false).table)
  {
    var dry, wet := AtNotice(s.table, product, w, rule), AtNotice(v.table, product, w, rule);
    FoundAlike(s.table, v.table, product, w, rule);
    StampedAlike(dry, wet, product, w.now);
  }

  // A dry run mails nobody, but its scans are committed: what it leaves is the
  // wet run's table except for the stamps.
  lemma {:induction false} DryRunStillScans(s: State, products: seq<Product>, w: World, rule: Rule)
    ensures AllSwept(s, products, w, rule, true).log == s.log
    ensures SameButStamps(AllSwept(s, products, w, rule, true).table, AllSwept(s, products, w, rule, false).table)
  {
    if products != [] {
      var front, last := products[..|products| - 1], products[|products| - 1];
      DryRunStillScans(s, front, w, rule);
      ProductSweptAlike(AllSwept(s, front, w, rule, true), AllSwept(s, front, w, rule, false), last.id, w, rule);
    }
  }
}
