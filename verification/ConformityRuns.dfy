// Runs of the conformity tools by several members at once: any operation may
// have read any earlier state of the record before it commits
// (src/cra/server/conformity.py; src/cra/server/store_backend.py, `mutate`).
module ConformityRuns {
  import opened Ordering
  import opened Retention
  import opened TechnicalFile
  import opened Conformity
  import opened FileProtocol

  datatype Filing = Filing(subject: Subject, kind: Kind, version: Option<string>, text: string, actor: string)

  // `Work` stands for every other tool: it may rewrite the content, file text
  // rows anywhere and withdraw rows.  `readAt` is the state an operation loaded
  // the record from; a freeze loads the evidence rows from a state of its own.
  datatype Step =
    | Work(content: Content, filed: seq<Filing>, withdrawn: set<int>)
    | FreezeStep(readAt: int, rowsAt: int, actor: string, covered: bool)
    | DraftStep(readAt: int, actor: string, draft: DraftArgs, now: int)
    | SignStep(readAt: int, actor: string, sign: SignArgs)

  function FiledRow(f: Filing): Evidence {
    Evidence(f.subject, f.kind, f.version, Text(f.text), Sha256(Text(f.text)), f.actor, false)
  }

  function Withdraw(rows: seq<Evidence>, withdrawn: set<int>): (r: seq<Evidence>)
    ensures |r| == |rows| && forall i :: 0 <= i < |rows| ==>
            r[i] == rows[i].(deleted := rows[i].deleted || i in withdrawn)
  {
    seq(|rows|, i requires 0 <= i < |rows| => rows[i].(deleted := rows[i].deleted || i in withdrawn))
  }

  // A refusal raises, and a raise leaves the record as it was.
  function Outcome(s: State, r: Result<State, Refusal>): State { if r.Ok? then r.value else s }

  function Act(read: State, rows: seq<Evidence>, s: State, step: Step): State {
    match step
    case Work(content, filed, withdrawn) =>
      s.(content := content, evidence := Withdraw(s.evidence, withdrawn) + Map(filed, FiledRow))
    case FreezeStep(_, _, actor, covered) =>
      var r := ReadFreeze(LoadedOver(read, rows), actor, covered);
      if r.Ok? then CommitFreeze(s, r.value) else s
    case DraftStep(_, actor, draft, now) =>
      var r := ReadDraft(read, actor, draft, now);
      if r.Ok? then Outcome(s, CommitDraft(s, r.value)) else s
    case SignStep(_, actor, sign) =>
      var r := ReadSign(read, actor, sign);
      if r.Ok? then Outcome(s, CommitSign(s, r.value)) else s
  }

  function Clamp(i: int, last: nat): nat { if 0 <= i <= last then i else last }

  function ReadAt(step: Step, last: nat): nat { if step.Work? then last else Clamp(step.readAt, last) }

  function RowsAt(step: Step, last: nat): nat { if step.FreezeStep? then Clamp(step.rowsAt, last) else last }

  function Run(start: State, steps: seq<Step>): (h: seq<State>)
    ensures |h| == |steps| + 1
  {
    if steps == [] then [start]
    else
      var n := |steps| - 1;
      var h := Run(start, steps[..n]);
      h + [Act(h[ReadAt(steps[n], n)], h[RowsAt(steps[n], n)].evidence, h[n], steps[n])]
  }

  // ---- what holds of every record ----

  // Row `i` is a frozen file with no mandatory section missing, and `hash` its digest.
  ghost predicate FrozenRow(rows: seq<Evidence>, i: int, hash: Digest) {
    && 0 <= i < |rows| && rows[i].sha256 == hash && rows[i].sha256 == Sha256(rows[i].body)
    && rows[i].body.FileBody? && MissingSections(rows[i].body.payload.slots) == [] && IdsBelow(rows[i].body.payload, i)
  }

  ghost predicate RestsOnFrozenFile(rows: seq<Evidence>, d: Declaration) {
    exists j :: FrozenRow(rows, j, d.technicalFile)
  }

  // Row `i` is a declaration with exactly the fields `missing` blank, drawn up against a frozen file.
  ghost predicate DraftedRow(rows: seq<Evidence>, i: int, hash: Digest, missing: seq<DocField>) {
    && 0 <= i < |rows| && rows[i].sha256 == hash && rows[i].sha256 == Sha256(rows[i].body)
    && rows[i].body.DeclarationBody? && missing == MissingFields(rows[i].body.declaration.fields)
    && RestsOnFrozenFile(rows, rows[i].body.declaration)
  }

  // What a signature of the current payload version rests on; one taken before
  // the payload had this version binds to some other body.
  ghost predicate Attested(rows: seq<Evidence>, a: Attestation) {
    if a.version != Some(PAYLOAD_VERSION) then
      a.bound.body.FileBody? ==> a.bound.body.payload.version != PAYLOAD_VERSION
    else
      && a.evidence.Some?
      && if a.paper == FilePaper then FrozenRow(rows, a.evidence.value, a.bound)
         else DraftedRow(rows, a.evidence.value, a.bound, [])
  }

  ghost predicate Sound(s: State) {
    && (s.fileHash.Some? <==> s.fileEvidence.Some?)
    && (s.fileHash.Some? ==> FrozenRow(s.evidence, s.fileEvidence.value, s.fileHash.value))
    && (s.declarationHash.Some? <==> s.declarationEvidence.Some?)
    && (s.declarationHash.Some? ==>
          DraftedRow(s.evidence, s.declarationEvidence.value, s.declarationHash.value, s.declarationMissing))
    && forall a :: a in s.attestations ==> Attested(s.evidence, a)
  }

  // Rows are only ever added or withdrawn, and attestations only added.
  ghost predicate Grows(s: State, t: State) {
    && |s.evidence| <= |t.evidence|
    && (forall i :: 0 <= i < |s.evidence| ==> SameRow(s.evidence[i], t.evidence[i]))
    && s.attestations <= t.attestations
  }

  predicate SameRow(e: Evidence, f: Evidence) { f == e.(deleted := f.deleted) && (e.deleted ==> f.deleted) }

  lemma FrozenRowKept(s: State, t: State, i: int, hash: Digest)
    requires Grows(s, t) && FrozenRow(s.evidence, i, hash)
    ensures FrozenRow(t.evidence, i, hash)
  {
    assert SameRow(s.evidence[i], t.evidence[i]);
  }

  lemma DraftedRowKept(s: State, t: State, i: int, hash: Digest, missing: seq<DocField>)
    requires Grows(s, t) && DraftedRow(s.evidence, i, hash, missing)
    ensures DraftedRow(t.evidence, i, hash, missing)
  {
    assert SameRow(s.evidence[i], t.evidence[i]);
    var j :| FrozenRow(s.evidence, j, s.evidence[i].body.declaration.technicalFile);
    FrozenRowKept(s, t, j, s.evidence[i].body.declaration.technicalFile);
  }

  lemma AttestedKept(s: State, t: State, a: Attestation)
    requires Grows(s, t) && Attested(s.evidence, a)
    ensures Attested(t.evidence, a)
  {
    if a.version != Some(PAYLOAD_VERSION) {
    } else if a.paper == FilePaper {
      FrozenRowKept(s, t, a.evidence.value, a.bound);
    } else {
      DraftedRowKept(s, t, a.evidence.value, a.bound, []);
    }
  }

  lemma GrowsThrough(s: State, t: State, u: State)
    requires Grows(s, t) && Grows(t, u)
    ensures Grows(s, u)
  {
    forall i | 0 <= i < |s.evidence| ensures SameRow(s.evidence[i], u.evidence[i]) {
      assert SameRow(s.evidence[i], t.evidence[i]) && SameRow(t.evidence[i], u.evidence[i]);
    }
  }

  lemma ActGrows(read: State, rows: seq<Evidence>, s: State, step: Step)
    ensures Grows(s, Act(read, rows, s, step))
  {
  }

  // Everything already on record stays backed when nothing new is recorded.
  lemma SoundKept(s: State, t: State)
    requires Sound(s) && Grows(s, t) && t.attestations == s.attestations
    requires t.fileHash == s.fileHash && t.fileEvidence == s.fileEvidence
    requires t.declarationHash == s.declarationHash && t.declarationEvidence == s.declarationEvidence
    requires t.declarationMissing == s.declarationMissing
    ensures Sound(t)
  {
    if s.fileHash.Some? {
      FrozenRowKept(s, t, s.fileEvidence.value, s.fileHash.value);
    }
    if s.declarationHash.Some? {
      DraftedRowKept(s, t, s.declarationEvidence.value, s.declarationHash.value, s.declarationMissing);
    }
    forall a | a in t.attestations ensures Attested(t.evidence, a) {
      AttestedKept(s, t, a);
    }
  }

  lemma FreezeKeepsSound(read: State, s: State, actor: string, covered: bool)
    requires Sound(s) && |read.evidence| <= |s.evidence| && ReadFreeze(read, actor, covered).Ok?
    ensures Sound(CommitFreeze(s, ReadFreeze(read, actor, covered).value))
  {
    var f := ReadFreeze(read, actor, covered).value;
    var t := CommitFreeze(s, f);
    SoundKept(s, s.(evidence := t.evidence));
    PayloadIdsBelow(read);
    assert FrozenRow(t.evidence, |s.evidence|, Sha256(f.body));
  }

  lemma DraftKeepsSound(read: State, s: State, actor: string, draft: DraftArgs, now: int)
    requires Sound(s) && Sound(read) && Grows(read, s)
    requires ReadDraft(read, actor, draft, now).Ok? && CommitDraft(s, ReadDraft(read, actor, draft, now).value).Ok?
    ensures Sound(CommitDraft(s, ReadDraft(read, actor, draft, now).value).value)
  {
    var d := ReadDraft(read, actor, draft, now).value;
    var t := CommitDraft(s, d).value;
    SoundKept(s, s.(evidence := t.evidence));
    GrowsThrough(read, s, t);
    FrozenRowKept(read, t, read.fileEvidence.value, read.fileHash.value);
    assert RestsOnFrozenFile(t.evidence, d.declaration);
    assert DraftedRow(t.evidence, |s.evidence|, Sha256(DeclarationBody(d.declaration)), d.missing);
  }

  lemma SignKeepsSound(read: State, s: State, actor: string, sign: SignArgs)
    requires Sound(s) && Sound(read) && Grows(read, s)
    requires ReadSign(read, actor, sign).Ok? && CommitSign(s, ReadSign(read, actor, sign).value).Ok?
    ensures Sound(CommitSign(s, ReadSign(read, actor, sign).value).value)
  {
    var a := ReadSign(read, actor, sign).value.attestation;
    assert Attested(read.evidence, a);
    AttestedKept(read, s, a);
  }

  lemma ActKeepsSound(read: State, rows: seq<Evidence>, s: State, step: Step)
    requires Sound(s) && Sound(read) && Grows(read, s) && |rows| <= |s.evidence|
    ensures Sound(Act(read, rows, s, step))
  {
    match step
    case Work(_, _, _) =>
      ActGrows(read, rows, s, step);
      SoundKept(s, Act(read, rows, s, step));
    case FreezeStep(_, _, actor, covered) =>
      if ReadFreeze(LoadedOver(read, rows), actor, covered).Ok? {
        FreezeKeepsSound(LoadedOver(read, rows), s, actor, covered);
      }
    case DraftStep(_, actor, draft, now) =>
      if ReadDraft(read, actor, draft, now).Ok? && CommitDraft(s, ReadDraft(read, actor, draft, now).value).Ok? {
        DraftKeepsSound(read, s, actor, draft, now);
      }
    case SignStep(_, actor, sign) =>
      if ReadSign(read, actor, sign).Ok? && CommitSign(s, ReadSign(read, actor, sign).value).Ok? {
        SignKeepsSound(read, s, actor, sign);
      }
  }

  // Under any interleaving the recorded hashes are the digests of the rows they
  // point at, every attestation names such a row, a signed declaration has no
  // Annex V field blank and rests on a whole frozen file, and no row a signature
  // rests on is ever rewritten.
  lemma {:induction false} EveryRunIsSound(start: State, steps: seq<Step>)
    requires Sound(start)
    ensures forall k :: 0 <= k <= |steps| ==> Sound(Run(start, steps)[k])
    ensures forall k :: 0 <= k <= |steps| ==> Grows(Run(start, steps)[k], Run(start, steps)[|steps|])
  {
    if steps != [] {
      var n := |steps| - 1;
      EveryRunIsSound(start, steps[..n]);
      var h := Run(start, steps[..n]);
      var read, rows := h[ReadAt(steps[n], n)], h[RowsAt(steps[n], n)].evidence;
      ActKeepsSound(read, rows, h[n], steps[n]);
      ActGrows(read, rows, h[n], steps[n]);
      var next := Act(read, rows, h[n], steps[n]);
      forall k | 0 <= k <= n ensures Grows(h[k], next) {
        GrowsThrough(h[k], h[n], next);
      }
      assert Grows(next, next);
    }
  }

  // State `k` had this version recorded, with nothing left blank if it is a declaration.
  ghost predicate RecordedAt(h: seq<State>, k: int, a: Attestation) {
    && 0 <= k < |h| && HashOf(h[k], a.paper) == Some(a.bound) && RowBehind(h[k], a.paper) == a.evidence
    && (a.paper == DeclarationPaper ==> h[k].declarationMissing == [])
  }

  // Nobody signs a version that was never the recorded one.
  lemma {:induction false} SignedVersionsWereRecorded(start: State, steps: seq<Step>)
    ensures forall a :: a in Run(start, steps)[|steps|].attestations && a !in start.attestations ==>
              exists k :: RecordedAt(Run(start, steps), k, a)
  {
    if steps != [] {
      var n := |steps| - 1;
      SignedVersionsWereRecorded(start, steps[..n]);
      var h, all := Run(start, steps[..n]), Run(start, steps);
      forall a | a in all[|steps|].attestations && a !in start.attestations
        ensures exists k :: RecordedAt(all, k, a)
      {
        if a in h[n].attestations {
          var k :| RecordedAt(h, k, a);
          assert RecordedAt(all, k, a);
        } else {
          assert RecordedAt(all, ReadAt(steps[n], n), a);
        }
      }
    }
  }

  // ---- what follows for readers of the record ----

  // In every reachable record a file signature reads current exactly while the
  // file says what the archived row it names says; one of an earlier version is
  // incomparable and never called superseded.
  lemma SignaturesReadTrue(start: State, steps: seq<Step>, a: Attestation)
    requires Sound(start)
    ensures var s := Run(start, steps)[|steps|];
            a in s.attestations && a.paper == FilePaper && s.fileHash.Some?
            && s.content.inScope == Some(true) && RetentionFits(s.content) ==>
              if a.version != Some(PAYLOAD_VERSION) then ReadingOf(s, a) == Ok(IncomparableReading)
              else
                && a.evidence.Some? && 0 <= a.evidence.value < |s.evidence|
                && s.evidence[a.evidence.value].body.FileBody?
                && ReadingOf(s, a) == Ok(if FileNow(s) == s.evidence[a.evidence.value].body.payload
                                         then CurrentReading else SupersededReading)
  {
    EveryRunIsSound(start, steps);
    var s := Run(start, steps)[|steps|];
    if a in s.attestations && a.paper == FilePaper && s.fileHash.Some? && a.version == Some(PAYLOAD_VERSION) {
      assert Attested(s.evidence, a);
      SignatureTracksTheFile(s, a, s.evidence[a.evidence.value].body.payload);
    }
  }

  // Freezing, declaring, re-freezing and signing go through from any reachable
  // record with no mandatory hole, whatever was signed before, whoever signs and
  // independently or not; only the freezer's own independent signature is refused.
  lemma SigningStaysReachable(start: State, steps: seq<Step>, actor: string, draft: DraftArgs, now: int,
                              signer: string, sign: SignArgs)
    requires Sound(start)
    ensures var s := Run(start, steps)[|steps|];
            s.content.inScope == Some(true) && RetentionFits(s.content) && NoHoles(s.content, s.evidence)
            && MayDeclare(s.content, draft) && NamesASigner(sign) ==>
              var end := Cycle(s, actor, draft, now, signer, sign);
              if VouchesForOneself(actor, signer, sign) then end == Err(NotIndependent)
              else
                && end.Ok? && |end.value.attestations| == |s.attestations| + 1
                && ReadingOf(end.value, end.value.attestations[|s.attestations|]) == Ok(CurrentReading)
  {
    EveryRunIsSound(start, steps);
    var s := Run(start, steps)[|steps|];
    forall a | a in s.attestations && a.paper == FilePaper && a.bound.body.FileBody?
               && a.bound.body.payload.version == PAYLOAD_VERSION
      ensures IdsBelow(a.bound.body.payload, |s.evidence|)
    {
      assert Attested(s.evidence, a);
    }
    if s.content.inScope == Some(true) && RetentionFits(s.content) && NoHoles(s.content, s.evidence)
       && MayDeclare(s.content, draft) && NamesASigner(sign) {
      NothingDeadlocks(s, actor, draft, now, signer, sign);
    }
  }
}
