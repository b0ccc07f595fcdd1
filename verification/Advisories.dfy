// Advisory candidates: the upsert a scan performs, and the two decisions a
// person can take (src/cra/server/advisories.py).
module Advisories {
  import opened Ordering
  import opened Matching

  datatype CandidateStatus = Open | Dismissed | Confirmed

  datatype CandidateKey = CandidateKey(product: Id, finding: FindingKey)

  // A row of `advisory_candidates`.  `probAt`/`pctAt` are the scores pinned when
  // somebody dismissed it; `provenance` is the score's model version and date.
  datatype Candidate = Candidate(key: CandidateKey, exploited: bool, kevCve: Option<Id>,
                                 prob: Option<real>, pct: Option<real>, provenance: Option<string>,
                                 status: CandidateStatus, notifiedAt: Option<int>,
                                 probAt: Option<real>, pctAt: Option<real>, firstSeen: int)

  // When a change of mind is big enough: multiplied by `factor` and up by `minRise`.
  datatype Rule = Rule(factor: real, minRise: real)

  const DEFAULT_RULE := Rule(2.0, 0.05)

  datatype Scan = Scan(product: Id, provenance: Option<string>, at: int) {
    function KeyOf(f: Finding): CandidateKey { CandidateKey(product, f.Key()) }
  }

  datatype Counts = Counts(added: int, updated: int, reopened: int) {
    function Plus(c: Counts): Counts { Counts(added + c.added, updated + c.updated, reopened + c.reopened) }
  }

  const NOTHING := Counts(0, 0, 0)

  // ---- one row and one finding ----

  function Fresh(s: Scan, f: Finding): Candidate {
    Candidate(s.KeyOf(f), f.exploited, f.kevCve, f.prob, f.pct, s.provenance, Open, None, None, None, s.at)
  }

  predicate MateriallyRiskier(row: Candidate, f: Finding, rule: Rule) {
    f.prob.Some? && row.probAt.Some?
    && f.prob.value >= row.probAt.value * rule.factor && f.prob.value - row.probAt.value >= rule.minRise
  }

  predicate BecomesExploited(row: Candidate, f: Finding) { f.exploited && !row.exploited }

  predicate ReopensOnEpss(row: Candidate, f: Finding, rule: Rule) {
    row.status.Dismissed? && !BecomesExploited(row, f) && MateriallyRiskier(row, f, rule)
  }

  // A scoring outage must not blank a score that was there yesterday.
  function Rescored(row: Candidate, f: Finding, provenance: Option<string>): Candidate {
    if f.prob.Some? then row.(prob := f.prob, pct := f.pct, provenance := provenance) else row
  }

  function Refreshed(row: Candidate, f: Finding, s: Scan, rule: Rule): Candidate {
    var scored := Rescored(row, f, s.provenance);
    if BecomesExploited(row, f) then
      scored.(exploited := true, kevCve := f.kevCve, notifiedAt := None,
        status := if row.status.Dismissed? then Open else row.status)
    else if ReopensOnEpss(row, f, rule) then scored.(status := Open, notifiedAt := None)
    else scored
  }

  function RefreshCounts(row: Candidate, f: Finding, rule: Rule): Counts {
    if BecomesExploited(row, f) then Counts(0, 1, 0)
    else if ReopensOnEpss(row, f, rule) then Counts(0, 1, 1)
    else NOTHING
  }

  // ---- a scan's transaction ----

  // The table; its unique constraint makes the key a key.
  type Table = map<CandidateKey, Candidate>

  // What the session holds before it commits: refreshed rows, and inserts that
  // no lookup can see yet.
  datatype Draft = Draft(work: Table, pending: seq<Candidate>, counts: Counts)

  function DraftStep(d: Draft, s: Scan, f: Finding, rule: Rule): Draft {
    var k := s.KeyOf(f);
    if k in d.work then
      Draft(d.work[k := Refreshed(d.work[k], f, s, rule)], d.pending, d.counts.Plus(RefreshCounts(d.work[k], f, rule)))
    else
      Draft(d.work, d.pending + [Fresh(s, f)], d.counts.Plus(Counts(1, 0, 0)))
  }

  function Drafted(t: Table, s: Scan, fs: seq<Finding>, rule: Rule): Draft {
    if fs == [] then Draft(t, [], NOTHING)
    else var n := |fs| - 1; DraftStep(Drafted(t, s, fs[..n], rule), s, fs[n], rule)
  }

  datatype PersistError = IntegrityError

  // The commit: a key inserted twice refuses everything.
  function Inserted(t: Table, pending: seq<Candidate>): Result<Table, PersistError> {
    if pending == [] then Ok(t)
    else
      var n := |pending| - 1;
      var before := Inserted(t, pending[..n]);
      if before.Err? || pending[n].key in before.value then Err(IntegrityError)
        else Ok(before.value[pending[n].key := pending[n]])
  }

  function Persisted(t: Table, s: Scan, fs: seq<Finding>, rule: Rule): Result<(Table, Counts), PersistError> {
    var d := Drafted(t, s, fs, rule);
    match Inserted(d.work, d.pending)
    case Ok(after) => Ok((after, d.counts))
    case Err(e) => Err(e)
  }

  datatype DecisionError = NotFound | AlreadyConfirmed

  class Candidates {
    var rows: Table

    constructor ()
      ensures rows == map[]
    {
      rows := map[];
    }

    method Persist(s: Scan, fs: seq<Finding>, rule: Rule) returns (r: Result<Counts, PersistError>)
      modifies this
      ensures match Persisted(old(rows), s, fs, rule)
              case Ok((after, counts)) => r == Ok(counts) && rows == after
              case Err(e) => r == Err(e) && rows == old(rows)
    {
      var work := rows;
      var pending: seq<Candidate> := [];
      var counts := NOTHING;
      for i := 0 to |fs|
        invariant rows == old(rows) && Draft(work, pending, counts) == Drafted(rows, s, fs[..i], rule)
      {
        assert fs[..i + 1][..i] == fs[..i];
        var f := fs[i];
        var key := s.KeyOf(f);
        if key !in work {
          pending := pending + [Fresh(s, f)];
          counts := counts.Plus(Counts(1, 0, 0));
          continue;
        }
        var next, delta := RefreshInPlace(work[key], f, s, rule);
        work := work[key := next];
        counts := counts.Plus(delta);
      }
      assert fs[..|fs|] == fs;
      ghost var drafted := work;
      for i := 0 to |pending|
        invariant rows == old(rows) && Inserted(drafted, pending[..i]) == Ok(work)
      {
        assert pending[..i + 1][..i] == pending[..i];
        if pending[i].key in work {
          InsertedPrefix(drafted, pending, i + 1);
          return Err(IntegrityError);
        }
        work := work[pending[i].key := pending[i]];
      }
      assert pending[..|pending|] == pending;
      rows := work;
      return Ok(counts);
    }

    // The body of the loop for a row that exists: the score first, then the two
    // triggers, KEV before EPSS.
    static method RefreshInPlace(row: Candidate, f: Finding, s: Scan, rule: Rule)
      returns (next: Candidate, delta: Counts)
      ensures next == Refreshed(row, f, s, rule) && delta == RefreshCounts(row, f, rule)
    {
      next, delta := row, NOTHING;
      var materiallyRiskier := false;
      if f.prob.Some? {
        var was := row.probAt;
        if was.Some? {
          materiallyRiskier := f.prob.value >= was.value * rule.factor && f.prob.value - was.value >= rule.minRise;
        }
        next := next.(prob := f.prob, pct := f.pct, provenance := s.provenance);
      }
      if f.exploited && !row.exploited {
        next := next.(exploited := true, kevCve := f.kevCve);
        if row.status.Dismissed? {
          next := next.(status := Open);
        }
        next := next.(notifiedAt := None);
        return next, Counts(0, 1, 0);
      }
      if row.status.Dismissed? && materiallyRiskier {
        next := next.(status := Open, notifiedAt := None);
        delta := Counts(0, 1, 1);
      }
    }

    // A dismissal pins the scores it was made against.
    method Dismiss(key: CandidateKey) returns (r: Result<Candidate, DecisionError>)
      modifies this
      ensures key !in old(rows) ==> r == Err(NotFound)
      ensures key in old(rows) && old(rows)[key].status.Confirmed? ==> r == Err(AlreadyConfirmed)
      ensures r.Err? ==> rows == old(rows)
      ensures key in old(rows) && !old(rows)[key].status.Confirmed? ==>
                r.Ok? && rows == old(rows)[key := StepRow(old(rows)[key], DismissStep, DEFAULT_RULE)]
    {
      if key !in rows {
        return Err(NotFound);
      }
      var row := rows[key];
      if row.status.Confirmed? {
        return Err(AlreadyConfirmed);
      }
      row := row.(status := Dismissed);
      row := row.(probAt := row.prob, pctAt := row.pct);
      rows := rows[key := row];
      return Ok(row);
    }

    // The first transaction of a confirmation: the awareness anchor is when the
    // tool told somebody, or failing that when it first saw the candidate.
    method ReadForConfirm(key: CandidateKey) returns (r: Result<int, DecisionError>)
      ensures key !in rows ==> r == Err(NotFound)
      ensures key in rows ==>
                r == if rows[key].status.Confirmed? then Err(AlreadyConfirmed)
                     else if rows[key].notifiedAt.Some? then Ok(rows[key].notifiedAt.value) else Ok(rows[key].firstSeen)
    {
      if key !in rows {
        return Err(NotFound);
      }
      var row := rows[key];
      if row.status.Confirmed? {
        return Err(AlreadyConfirmed);
      }
      return Ok(if row.notifiedAt.Some? then row.notifiedAt.value else row.firstSeen);
    }

    // The second transaction; whatever happened in between, the row ends confirmed.
    method CommitConfirm(key: CandidateKey)
      requires key in rows
      modifies this
      ensures rows == old(rows)[key := StepRow(old(rows)[key], ConfirmStep, DEFAULT_RULE)]
    {
      rows := rows[key := rows[key].(status := Confirmed)];
    }
  }

  lemma {:induction false} InsertedPrefix(t: Table, pending: seq<Candidate>, n: nat)
    requires n <= |pending| && Inserted(t, pending[..n]).Err?
    ensures Inserted(t, pending).Err?
    decreases |pending|
  {
    if n < |pending| {
      assert pending[..|pending| - 1][..n] == pending[..n];
      InsertedPrefix(t, pending[..|pending| - 1], n);
    } else {
      assert pending[..n] == pending;
    }
  }

  // ---- the transaction refines a per-key update ----

  function KeyIn(s: Scan): Finding -> CandidateKey { (f: Finding) => s.KeyOf(f) }

  // Two findings for one key the table does not hold.
  ghost predicate Clash(t: Table, s: Scan, fs: seq<Finding>) {
    exists a, b :: 0 <= a < b < |fs| && s.KeyOf(fs[a]) == s.KeyOf(fs[b]) && s.KeyOf(fs[a]) !in t
  }

  // One finding's effect on the row of its key.
  function Updated(t: Table, s: Scan, f: Finding, rule: Rule): Candidate {
    if s.KeyOf(f) in t then Refreshed(t[s.KeyOf(f)], f, s, rule) else Fresh(s, f)
  }

  function CountsOf(t: Table, s: Scan, f: Finding, rule: Rule): Counts {
    if s.KeyOf(f) in t then RefreshCounts(t[s.KeyOf(f)], f, rule) else Counts(1, 0, 0)
  }

  function SumOver<T>(xs: seq<T>, g: T -> Counts): Counts
    decreases |xs|
  {
    if xs == [] then NOTHING else SumOver(xs[..|xs| - 1], g).Plus(g(xs[|xs| - 1]))
  }

  function TotalCounts(t: Table, s: Scan, fs: seq<Finding>, rule: Rule): Counts {
    SumOver(fs, (f: Finding) => CountsOf(t, s, f, rule))
  }

  // The per-key specification: a key's row is updated by the finding for that
  // key, whichever one it is, and every other row is left alone.
  ghost predicate UpdatedPerKey(before: Table, after: Table, s: Scan, fs: seq<Finding>, rule: Rule) {
    && (forall k :: k in after <==> k in before || exists i :: 0 <= i < |fs| && s.KeyOf(fs[i]) == k)
    && (forall i :: 0 <= i < |fs| ==>
          s.KeyOf(fs[i]) in after && after[s.KeyOf(fs[i])] == Updated(before, s, fs[i], rule))
    && (forall k :: k in before && (forall i :: 0 <= i < |fs| ==> s.KeyOf(fs[i]) != k) ==>
          k in after && after[k] == before[k])
  }

  predicate Missing(t: Table, s: Scan, f: Finding) { s.KeyOf(f) !in t }

  function Inserts(t: Table, s: Scan, fs: seq<Finding>): seq<Candidate> {
    Map(Filter(fs, f => Missing(t, s, f)), f => Fresh(s, f))
  }

  lemma {:induction false} DraftedInserts(t: Table, s: Scan, fs: seq<Finding>, rule: Rule)
    ensures Drafted(t, s, fs, rule).work.Keys == t.Keys
    ensures Drafted(t, s, fs, rule).pending == Inserts(t, s, fs)
  {
    if fs != [] {
      var n := |fs| - 1;
      DraftedInserts(t, s, fs[..n], rule);
      assert fs == fs[..n] + [fs[n]];
      InsertsStep(t, s, fs[..n], fs[n]);
    }
  }

  function RowKey(): Candidate -> CandidateKey { (r: Candidate) => r.key }

  // `after` is `before` with each pending row added under its key.
  ghost predicate AddsRows(before: Table, after: Table, pending: seq<Candidate>) {
    && (forall k :: k in after <==> k in before || exists i :: 0 <= i < |pending| && pending[i].key == k)
    && (forall i :: 0 <= i < |pending| ==> after[pending[i].key] == pending[i])
    && (forall k :: k in before ==> after[k] == before[k])
  }

  lemma AddsOneMore(before: Table, after: Table, pending: seq<Candidate>, p: Candidate)
    requires AddsRows(before, after, pending) && p.key !in after
    ensures AddsRows(before, after[p.key := p], pending + [p])
  {
    var all := pending + [p];
    assert all[|pending|] == p && forall i :: 0 <= i < |pending| ==> all[i] == pending[i];
  }

  lemma {:induction false} InsertedRows(t: Table, pending: seq<Candidate>)
    requires forall p :: p in pending ==> p.key !in t
    ensures Inserted(t, pending).Ok? <==> DistinctBy(pending, RowKey())
    ensures Inserted(t, pending).Ok? ==> AddsRows(t, Inserted(t, pending).value, pending)
  {
    if pending != [] {
      var n := |pending| - 1;
      InsertedRows(t, pending[..n]);
      assert pending == pending[..n] + [pending[n]];
      LastKeyIsNew(t, pending);
      if Inserted(t, pending).Ok? {
        AddsOneMore(t, Inserted(t, pending[..n]).value, pending[..n], pending[n]);
      }
    }
  }

  // The last row goes in exactly when no earlier one has its key.
  lemma LastKeyIsNew(t: Table, pending: seq<Candidate>)
    requires pending != [] && pending[|pending| - 1].key !in t
    requires var front := pending[..|pending| - 1];
             (Inserted(t, front).Ok? <==> DistinctBy(front, RowKey()))
             && (Inserted(t, front).Ok? ==> AddsRows(t, Inserted(t, front).value, front))
    ensures Inserted(t, pending).Ok? <==> DistinctBy(pending, RowKey())
  {
    var n := |pending| - 1;
    var front, last := pending[..n], pending[n];
    assert pending == front + [last];
    DistinctConcat(front, [last], RowKey());
    assert last in [last] && forall y :: y in [last] ==> y == last;
    if Inserted(t, front).Ok? {
      var after := Inserted(t, front).value;
      if last.key in after {
        var i :| 0 <= i < n && front[i].key == last.key;
        assert front[i] in front && RowKey()(front[i]) == RowKey()(last);
      } else {
        forall x | x in front ensures RowKey()(x) != RowKey()(last) {
          var i :| 0 <= i < n && front[i] == x;
          assert front[i].key in after;
        }
      }
    }
  }

  lemma InsertsStep(t: Table, s: Scan, fs: seq<Finding>, f: Finding)
    ensures Inserts(t, s, fs + [f]) == Inserts(t, s, fs) + if Missing(t, s, f) then [Fresh(s, f)] else []
  {
    var kept := Filter(fs, f => Missing(t, s, f));
    assert (fs + [f])[..|fs|] == fs;
    assert Map(kept + [f], f => Fresh(s, f)) == Map(kept, f => Fresh(s, f)) + [Fresh(s, f)];
    assert kept + [] == kept && Inserts(t, s, fs) + [] == Inserts(t, s, fs);
  }

  lemma {:induction false} InsertsMembers(t: Table, s: Scan, fs: seq<Finding>)
    ensures forall p ::
              p in Inserts(t, s, fs) <==> exists i :: 0 <= i < |fs| && Missing(t, s, fs[i]) && p == Fresh(s, fs[i])
  {
    if fs != [] {
      var n := |fs| - 1;
      InsertsMembers(t, s, fs[..n]);
      assert fs == fs[..n] + [fs[n]];
      InsertsStep(t, s, fs[..n], fs[n]);
      assert forall i :: 0 <= i < n ==> fs[..n][i] == fs[i];
    }
  }

  lemma {:induction false} InsertsDistinct(t: Table, s: Scan, fs: seq<Finding>)
    ensures DistinctBy(Inserts(t, s, fs), RowKey()) <==> !Clash(t, s, fs)
  {
    if fs != [] {
      var n := |fs| - 1;
      InsertsDistinct(t, s, fs[..n]);
      assert fs == fs[..n] + [fs[n]];
      InsertsStep(t, s, fs[..n], fs[n]);
      ClashStep(t, s, fs);
      if Missing(t, s, fs[n]) {
        DistinctConcat(Inserts(t, s, fs[..n]), [Fresh(s, fs[n])], RowKey());
        SharedKeys(t, s, fs);
      } else {
        assert Inserts(t, s, fs[..n]) + [] == Inserts(t, s, fs[..n]);
      }
    }
  }

  // An earlier insert has the last finding's key exactly when an earlier
  // missing finding has.
  lemma SharedKeys(t: Table, s: Scan, fs: seq<Finding>)
    requires fs != []
    ensures var n := |fs| - 1;
            (exists x, y :: x in Inserts(t, s, fs[..n]) && y in [Fresh(s, fs[n])] && RowKey()(x) == RowKey()(y))
            <==> exists i :: 0 <= i < n && Missing(t, s, fs[i]) && s.KeyOf(fs[i]) == s.KeyOf(fs[n])
  {
    var n := |fs| - 1;
    var before, last := Inserts(t, s, fs[..n]), Fresh(s, fs[n]);
    InsertsMembers(t, s, fs[..n]);
    assert last in [last];
    if x, y :| x in before && y in [last] && RowKey()(x) == RowKey()(y) {
      var i :| 0 <= i < n && Missing(t, s, fs[..n][i]) && x == Fresh(s, fs[..n][i]);
      assert fs[..n][i] == fs[i];
    }
    if i :| 0 <= i < n && Missing(t, s, fs[i]) && s.KeyOf(fs[i]) == s.KeyOf(fs[n]) {
      assert fs[..n][i] == fs[i] && Fresh(s, fs[i]) in before;
      assert RowKey()(Fresh(s, fs[i])) == RowKey()(last);
    }
  }

  lemma ClashStep(t: Table, s: Scan, fs: seq<Finding>)
    requires fs != []
    ensures var n := |fs| - 1;
            Clash(t, s, fs) <==>
              Clash(t, s, fs[..n])
              || exists i :: 0 <= i < n && Missing(t, s, fs[i]) && s.KeyOf(fs[i]) == s.KeyOf(fs[n])
  {
    var n := |fs| - 1;
    assert forall i :: 0 <= i < n ==> fs[..n][i] == fs[i];
  }

  // A scan is refused exactly when two of its findings share a key that the
  // table does not hold yet.
  lemma PersistRefusesClashes(t: Table, s: Scan, fs: seq<Finding>, rule: Rule)
    ensures Persisted(t, s, fs, rule).Err? <==> Clash(t, s, fs)
  {
    DraftedInserts(t, s, fs, rule);
    InsertsDistinct(t, s, fs);
    InsertsMembers(t, s, fs);
    InsertedRows(Drafted(t, s, fs, rule).work, Inserts(t, s, fs));
  }

  // What a draft holds of the table once the findings went through it.
  ghost predicate Drafts(t: Table, d: Draft, s: Scan, fs: seq<Finding>, rule: Rule) {
    && d.work.Keys == t.Keys
    && (forall i :: 0 <= i < |fs| && s.KeyOf(fs[i]) in t ==> d.work[s.KeyOf(fs[i])] == Updated(t, s, fs[i], rule))
    && (forall k :: k in t && (forall i :: 0 <= i < |fs| ==> s.KeyOf(fs[i]) != k) ==> d.work[k] == t[k])
  }

  lemma DraftsOneMore(t: Table, d: Draft, s: Scan, fs: seq<Finding>, f: Finding, rule: Rule)
    requires Drafts(t, d, s, fs, rule) && forall i :: 0 <= i < |fs| ==> s.KeyOf(fs[i]) != s.KeyOf(f)
    ensures Drafts(t, DraftStep(d, s, f, rule), s, fs + [f], rule)
    ensures DraftStep(d, s, f, rule).counts == d.counts.Plus(CountsOf(t, s, f, rule))
  {
    var all := fs + [f];
    assert all[|fs|] == f && forall i :: 0 <= i < |fs| ==> all[i] == fs[i];
    assert s.KeyOf(f) in t ==> d.work[s.KeyOf(f)] == t[s.KeyOf(f)];
  }

  lemma {:induction false} DraftedRows(t: Table, s: Scan, fs: seq<Finding>, rule: Rule)
    requires DistinctBy(fs, KeyIn(s))
    ensures Drafted(t, s, fs, rule).counts == TotalCounts(t, s, fs, rule)
    ensures Drafts(t, Drafted(t, s, fs, rule), s, fs, rule)
  {
    if fs != [] {
      var n := |fs| - 1;
      assert fs == fs[..n] + [fs[n]];
      DistinctConcat(fs[..n], [fs[n]], KeyIn(s));
      DraftedRows(t, s, fs[..n], rule);
      forall i | 0 <= i < n ensures s.KeyOf(fs[..n][i]) != s.KeyOf(fs[n]) {
        assert KeyIn(s)(fs[i]) != KeyIn(s)(fs[n]);
      }
      DraftsOneMore(t, Drafted(t, s, fs[..n], rule), s, fs[..n], fs[n], rule);
    }
  }

  lemma CommittedRows(t: Table, work: Table, s: Scan, fs: seq<Finding>)
    requires work.Keys == t.Keys && !Clash(t, s, fs)
    ensures Inserted(work, Inserts(t, s, fs)).Ok?
    ensures var after := Inserted(work, Inserts(t, s, fs)).value;
            && (forall k :: k in t ==> k in after && after[k] == work[k])
            && (forall k :: k in after && k !in t ==> exists i :: 0 <= i < |fs| && s.KeyOf(fs[i]) == k)
            && (forall i :: 0 <= i < |fs| && Missing(t, s, fs[i]) ==>
              s.KeyOf(fs[i]) in after && after[s.KeyOf(fs[i])] == Fresh(s, fs[i]))
  {
    var pending := Inserts(t, s, fs);
    InsertsDistinct(t, s, fs);
    InsertsMembers(t, s, fs);
    InsertedRows(work, pending);
    var after := Inserted(work, pending).value;
    forall i | 0 <= i < |fs| && Missing(t, s, fs[i]) ensures s.KeyOf(fs[i]) in after
      && after[s.KeyOf(fs[i])] == Fresh(s, fs[i]) {
      assert Fresh(s, fs[i]) in pending;
      var j :| 0 <= j < |pending| && pending[j] == Fresh(s, fs[i]);
      assert after[pending[j].key] == pending[j];
    }
    forall k | k in after && k !in t ensures exists i :: 0 <= i < |fs| && s.KeyOf(fs[i]) == k {
      var j :| 0 <= j < |pending| && pending[j].key == k;
      assert pending[j] in pending;
    }
  }

  lemma DistinctNeverClash(t: Table, s: Scan, fs: seq<Finding>)
    requires DistinctBy(fs, KeyIn(s))
    ensures !Clash(t, s, fs)
  {
    forall a, b | 0 <= a < b < |fs| ensures s.KeyOf(fs[a]) != s.KeyOf(fs[b]) {
      assert KeyIn(s)(fs[a]) != KeyIn(s)(fs[b]);
    }
  }

  // For findings with distinct keys the in-place loop is a per-key map update.
  lemma PersistIsPerKey(t: Table, s: Scan, fs: seq<Finding>, rule: Rule)
    requires DistinctBy(fs, KeyIn(s))
    ensures Persisted(t, s, fs, rule).Ok?
    ensures UpdatedPerKey(t, Persisted(t, s, fs, rule).value.0, s, fs, rule)
    ensures Persisted(t, s, fs, rule).value.1 == TotalCounts(t, s, fs, rule)
  {
    DistinctNeverClash(t, s, fs);
    DraftedInserts(t, s, fs, rule);
    DraftedRows(t, s, fs, rule);
    var work := Drafted(t, s, fs, rule).work;
    CommittedRows(t, work, s, fs);
    var after := Inserted(work, Inserts(t, s, fs)).value;
    forall i | 0 <= i < |fs| ensures s.KeyOf(fs[i]) in after && after[s.KeyOf(fs[i])] == Updated(t, s, fs[i], rule) {
      assert Missing(t, s, fs[i]) || s.KeyOf(fs[i]) in t;
    }
  }

  lemma PerKeyIsUnique(t: Table, a: Table, b: Table, s: Scan, fs: seq<Finding>, gs: seq<Finding>, rule: Rule)
    requires UpdatedPerKey(t, a, s, fs, rule) && UpdatedPerKey(t, b, s, gs, rule)
    requires multiset(fs) == multiset(gs)
    ensures a == b
  {
    SameMembers(fs, gs);
    forall k ensures k in a <==> k in b {
      SameKeys(s, fs, gs, k);
    }
    forall k | k in a ensures a[k] == b[k] {
      SameKeys(s, fs, gs, k);
      if i :| 0 <= i < |fs| && s.KeyOf(fs[i]) == k {
        assert fs[i] in gs;
        var j :| 0 <= j < |gs| && gs[j] == fs[i];
      }
    }
  }

  lemma SameMembers<T>(fs: seq<T>, gs: seq<T>)
    requires multiset(fs) == multiset(gs)
    ensures forall f :: f in fs <==> f in gs
  {
    forall f ensures f in fs <==> f in gs {
      assert f in multiset(fs) <==> f in multiset(gs);
    }
  }

  lemma SameKeys(s: Scan, fs: seq<Finding>, gs: seq<Finding>, k: CandidateKey)
    requires forall f :: f in fs <==> f in gs
    ensures (exists i :: 0 <= i < |fs| && s.KeyOf(fs[i]) == k) <==> (exists i :: 0 <= i < |gs| && s.KeyOf(gs[i]) == k)
  {
    if i :| 0 <= i < |fs| && s.KeyOf(fs[i]) == k {
      assert fs[i] in gs;
    }
    if j :| 0 <= j < |gs| && s.KeyOf(gs[j]) == k {
      assert gs[j] in fs;
    }
  }

  lemma {:induction false} SumConcat<T>(a: seq<T>, b: seq<T>, g: T -> Counts)
    ensures SumOver(a + b, g) == SumOver(a, g).Plus(SumOver(b, g))
    decreases |b|
  {
    if b == [] {
      assert a + b == a;
    } else {
      assert (a + b)[..|a + b| - 1] == a + b[..|b| - 1];
      SumConcat(a, b[..|b| - 1], g);
    }
  }

  // Taking one occurrence of x out of a list that holds it.
  lemma Without<T>(xs: seq<T>, x: T) returns (a: seq<T>, b: seq<T>)
    requires x in xs
    ensures xs == a + ([x] + b)
    ensures multiset(a + b) == multiset(xs) - multiset{x}
  {
    var j :| 0 <= j < |xs| && xs[j] == x;
    a, b := xs[..j], xs[j + 1..];
    assert xs == a + ([x] + b);
    assert multiset(xs) == multiset(a) + multiset{x} + multiset(b);
  }

  lemma {:induction false} SumPermute<T>(xs: seq<T>, ys: seq<T>, g: T -> Counts)
    requires multiset(xs) == multiset(ys)
    ensures SumOver(xs, g) == SumOver(ys, g)
    decreases |xs|
  {
    assert |xs| == |multiset(xs)| == |multiset(ys)| == |ys|;
    if xs != [] {
      var n := |xs| - 1;
      SameMembers(xs, ys);
      var a, b := Without(ys, xs[n]);
      assert xs == xs[..n] + [xs[n]];
      SumPermute(xs[..n], a + b, g);
      SumConcat(a, [xs[n]] + b, g);
      SumConcat([xs[n]], b, g);
      SumConcat(a, b, g);
      assert [xs[n]][..0] == [];
    }
  }

  lemma DistinctMoved<T(!new), K>(a: seq<T>, y: T, b: seq<T>, front: seq<T>, key: T -> K)
    requires DistinctBy(a + ([y] + b), key) && DistinctBy(front, key)
    requires forall x :: x in front ==> x in a || x in b
    ensures DistinctBy(front + [y], key)
  {
    DistinctConcat(a, [y] + b, key);
    DistinctConcat([y], b, key);
    DistinctConcat(front, [y], key);
    assert y in [y] && y in [y] + b;
  }

  lemma DistinctWithout<T(!new), K>(a: seq<T>, y: T, b: seq<T>, key: T -> K)
    requires DistinctBy(a + ([y] + b), key)
    ensures DistinctBy(a + b, key)
  {
    DistinctConcat(a, [y] + b, key);
    DistinctConcat([y], b, key);
    DistinctConcat(a, b, key);
  }

  lemma {:induction false} DistinctPermute<T(!new), K>(xs: seq<T>, ys: seq<T>, key: T -> K)
    requires multiset(xs) == multiset(ys) && DistinctBy(xs, key)
    ensures DistinctBy(ys, key)
    decreases |ys|
  {
    if ys != [] {
      var front, y := ys[..|ys| - 1], ys[|ys| - 1];
      assert ys == front + [y];
      SameMembers(xs, ys);
      var a, b := Without(xs, y);
      DistinctWithout(a, y, b, key);
      DistinctPermute(a + b, front, key);
      SameMembers(a + b, front);
      DistinctMoved(a, y, b, front, key);
    }
  }

  // The order of findings changes neither the table nor the counters.
  lemma PersistIgnoresOrder(t: Table, s: Scan, fs: seq<Finding>, gs: seq<Finding>, rule: Rule)
    requires DistinctBy(fs, KeyIn(s)) && multiset(fs) == multiset(gs)
    ensures Persisted(t, s, fs, rule) == Persisted(t, s, gs, rule)
  {
    DistinctPermute(fs, gs, KeyIn(s));
    PersistIsPerKey(t, s, fs, rule);
    PersistIsPerKey(t, s, gs, rule);
    PerKeyIsUnique(t, Persisted(t, s, fs, rule).value.0, Persisted(t, s, gs, rule).value.0, s, fs, gs, rule);
    SumPermute(fs, gs, f => CountsOf(t, s, f, rule));
  }

  lemma RefreshTwice(row: Candidate, f: Finding, s: Scan, rule: Rule)
    ensures Refreshed(Refreshed(row, f, s, rule), f, s, rule) == Refreshed(row, f, s, rule)
    ensures RefreshCounts(Refreshed(row, f, s, rule), f, rule) == NOTHING
    ensures Refreshed(Fresh(s, f), f, s, rule) == Fresh(s, f) && RefreshCounts(Fresh(s, f), f, rule) == NOTHING
  {
  }

  lemma {:induction false} SumOfNothing<T>(xs: seq<T>, g: T -> Counts)
    requires forall x :: x in xs ==> g(x) == NOTHING
    ensures SumOver(xs, g) == NOTHING
    decreases |xs|
  {
    if xs != [] {
      SumOfNothing(xs[..|xs| - 1], g);
    }
  }

  lemma SecondPassIsIdle(t: Table, after: Table, s: Scan, fs: seq<Finding>, rule: Rule)
    requires UpdatedPerKey(t, after, s, fs, rule)
    ensures forall i :: 0 <= i < |fs| ==>
              && Updated(after, s, fs[i], rule) == after[s.KeyOf(fs[i])]
              && CountsOf(after, s, fs[i], rule) == NOTHING
  {
    forall i | 0 <= i < |fs|
      ensures Updated(after, s, fs[i], rule) == after[s.KeyOf(fs[i])] && CountsOf(after, s, fs[i], rule) == NOTHING
    {
      RefreshTwice(if s.KeyOf(fs[i]) in t then t[s.KeyOf(fs[i])] else Fresh(s, fs[i]), fs[i], s, rule);
    }
  }

  lemma IdleIsUnchanged(t: Table, after: Table, s: Scan, fs: seq<Finding>, rule: Rule)
    requires UpdatedPerKey(t, after, s, fs, rule)
    requires forall i :: 0 <= i < |fs| ==> s.KeyOf(fs[i]) in t && Updated(t, s, fs[i], rule) == t[s.KeyOf(fs[i])]
    ensures after == t
  {
    forall k | k in t ensures after[k] == t[k] {
      if i :| 0 <= i < |fs| && s.KeyOf(fs[i]) == k {
        assert after[s.KeyOf(fs[i])] == Updated(t, s, fs[i], rule);
      }
    }
    assert after.Keys == t.Keys;
  }

  // A second pass over the same result changes nothing and counts nothing.
  lemma PersistIsIdempotent(t: Table, s: Scan, fs: seq<Finding>, rule: Rule)
    requires DistinctBy(fs, KeyIn(s))
    ensures Persisted(t, s, fs, rule).Ok?
    ensures var after := Persisted(t, s, fs, rule).value.0; Persisted(after, s, fs, rule) == Ok((after, NOTHING))
  {
    PersistIsPerKey(t, s, fs, rule);
    var after := Persisted(t, s, fs, rule).value.0;
    PersistIsPerKey(after, s, fs, rule);
    SecondPassIsIdle(t, after, s, fs, rule);
    SumOfNothing(fs, f => CountsOf(after, s, f, rule));
    IdleIsUnchanged(after, Persisted(after, s, fs, rule).value.0, s, fs, rule);
  }

  // A queue built from a separable scan always persists; on an empty table no
  // other queue does.
  lemma QueuePersists(comps: seq<Component>, found: seq<(ComponentKey, seq<Id>)>, feeds: Feeds,
                      t: Table, s: Scan, fs: seq<Finding>, rule: Rule)
    requires fs == Queue(comps, found, feeds)
    ensures Separable(comps, SortBy(found, ByItemKey())) ==> Persisted(t, s, fs, rule).Ok?
    ensures t == map[] ==> (Persisted(t, s, fs, rule).Ok? <==> Separable(comps, SortBy(found, ByItemKey())))
  {
    QueueKeysDistinct(comps, found, feeds);
    PersistRefusesClashes(t, s, fs, rule);
    ClashIsSharedKey(t, s, fs);
  }

  lemma ClashIsSharedKey(t: Table, s: Scan, fs: seq<Finding>)
    ensures Clash(t, s, fs) ==> !DistinctBy(fs, KeyOfFinding())
    ensures t == map[] && !DistinctBy(fs, KeyOfFinding()) ==> Clash(t, s, fs)
  {
    forall i, j | 0 <= i < j < |fs|
      ensures KeyOfFinding()(fs[i]) == KeyOfFinding()(fs[j]) <==> s.KeyOf(fs[i]) == s.KeyOf(fs[j])
    {
    }
  }

  // ---- one row over time ----

  datatype Step =
    | Scanned(finding: Finding, scan: Scan)
    | DismissStep
    | ConfirmStep
    | NotifyStep(now: int)

  predicate AwaitsNotice(row: Candidate) { row.status.Open? && row.exploited && row.notifiedAt.None? }

  function StepRow(row: Candidate, e: Step, rule: Rule): Candidate {
    match e
    case Scanned(f, s) => Refreshed(row, f, s, rule)
    case DismissStep => if row.status.Confirmed? then row
      else row.(status := Dismissed, probAt := row.prob, pctAt := row.pct)
    case ConfirmStep => row.(status := Confirmed)
    case NotifyStep(now) => if AwaitsNotice(row) then row.(notifiedAt := Some(now)) else row
  }

  // ---- what a scan does to a row, field by field ----

  // CISA lists the finding and the row did not say so yet.
  ghost predicate NewlyListed(row: Candidate, f: Finding) { f.exploited && !row.exploited }

  // The score has risen by the rule's factor and step over the pinned one.
  ghost predicate RisenOverPin(row: Candidate, f: Finding, rule: Rule) {
    && f.prob.Some? && row.probAt.Some?
    && f.prob.value >= row.probAt.value * rule.factor && f.prob.value >= row.probAt.value + rule.minRise
  }

  // The listing and the score are taken over, an absent score blanks nothing, and
  // a new listing or a rise re-opens a dismissal and lifts the stamp, the listing
  // even off a row that was not dismissed; a confirmed row stays confirmed.
  ghost predicate TakesUp(row: Candidate, next: Candidate, f: Finding, s: Scan, rule: Rule) {
    var listed := NewlyListed(row, f);
    var reopened := row.status == Dismissed && (listed || RisenOverPin(row, f, rule));
    && next.key == row.key && next.firstSeen == row.firstSeen && next.probAt == row.probAt && next.pctAt == row.pctAt
    && (next.exploited <==> row.exploited || f.exploited)
    && next.kevCve == (if listed then f.kevCve else row.kevCve)
    && (f.prob.Some? ==> next.prob == f.prob && next.pct == f.pct && next.provenance == s.provenance)
    && (f.prob.None? ==> next.prob == row.prob && next.pct == row.pct && next.provenance == row.provenance)
    && next.status == (if reopened then Open else row.status)
    && next.notifiedAt == (if listed || reopened then None else row.notifiedAt)
  }

  lemma RefreshExactly(row: Candidate, f: Finding, s: Scan, rule: Rule)
    ensures TakesUp(row, Refreshed(row, f, s, rule), f, s, rule)
    ensures var counts := RefreshCounts(row, f, rule);
            var reopened := row.status == Dismissed && !NewlyListed(row, f) && RisenOverPin(row, f, rule);
            && counts.added == 0
            && counts.updated == (if NewlyListed(row, f) || reopened then 1 else 0)
            && counts.reopened == (if reopened then 1 else 0)
  {
  }

  // A row nobody had, as the finding describes it: open, not told about, nothing pinned.
  ghost predicate StartsFrom(row: Candidate, f: Finding, s: Scan) {
    && row.key == CandidateKey(s.product, FindingKey(f.advisory, f.name, f.version))
    && row.exploited == f.exploited && row.kevCve == f.kevCve && row.prob == f.prob && row.pct == f.pct
    && row.provenance == s.provenance && row.firstSeen == s.at
    && row.status == Open && row.notifiedAt.None? && row.probAt.None? && row.pctAt.None?
  }

  // A committed scan of distinct findings, row by row: each finding's row is taken
  // up or started, and no other row moves.
  lemma ScanExactly(t: Table, s: Scan, fs: seq<Finding>, rule: Rule)
    requires DistinctBy(fs, KeyIn(s))
    ensures Persisted(t, s, fs, rule).Ok?
    ensures var after := Persisted(t, s, fs, rule).value.0;
            && (forall i :: 0 <= i < |fs| ==>
                  var k := CandidateKey(s.product, FindingKey(fs[i].advisory, fs[i].name, fs[i].version));
                  && k in after
                  && if k in t then TakesUp(t[k], after[k], fs[i], s, rule) else StartsFrom(after[k], fs[i], s))
            && (forall k :: k in t || k in after ==>
                  || (k in t && k in after && after[k] == t[k])
                  || exists i :: 0 <= i < |fs| && s.KeyOf(fs[i]) == k)
  {
    PersistIsPerKey(t, s, fs, rule);
    var after := Persisted(t, s, fs, rule).value.0;
    forall i | 0 <= i < |fs|
      ensures var k := s.KeyOf(fs[i]);
              k in after && if k in t then TakesUp(t[k], after[k], fs[i], s, rule) else StartsFrom(after[k], fs[i], s)
    {
      assert after[s.KeyOf(fs[i])] == Updated(t, s, fs[i], rule);
      if s.KeyOf(fs[i]) in t {
        RefreshExactly(t[s.KeyOf(fs[i])], fs[i], s, rule);
      }
    }
  }

  // What the other three steps do: a dismissal pins the scores it was made on and
  // spares a confirmed row, a confirmation only confirms, and a notice stamps a row
  // that is open, exploited and not told about, and no other.
  lemma StepsExactly(row: Candidate, now: int, rule: Rule)
    ensures StepRow(row, DismissStep, rule)
            == if row.status == Confirmed then row
               else row.(status := Dismissed, probAt := row.prob, pctAt := row.pct)
    ensures StepRow(row, ConfirmStep, rule) == row.(status := Confirmed)
    ensures StepRow(row, NotifyStep(now), rule)
            == if row.status == Open && row.exploited && row.notifiedAt == None then row.(notifiedAt := Some(now))
               else row
  {
  }
}
