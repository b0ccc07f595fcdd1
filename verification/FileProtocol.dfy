// What freezing, declaring, re-freezing and signing keep, move and never block
// (src/cra/server/conformity.py).
module FileProtocol {
  import opened Ordering
  import opened Narrative
  import opened Retention
  import opened Strings
  import opened TechnicalFile
  import opened Conformity

  // ---- freezing is a fixpoint ----

  // Whatever snapshot is committed, it does not move what the file says.
  lemma FreezeMovesNothing(s: State, f: Freeze)
    ensures FileNow(CommitFreeze(s, f)) == FileNow(s)
    ensures NoHoles(s.content, CommitFreeze(s, f).evidence) <==> NoHoles(s.content, s.evidence)
  {
    SnapshotUnseen(s.content, s.declarationHash.Some?, s.evidence, Snapshot(f));
    CompleteMeansNoHoles(s.content, s.declarationHash.Some?, s.evidence);
    CompleteMeansNoHoles(s.content, s.declarationHash.Some?, CommitFreeze(s, f).evidence);
  }

  // Reassembly after a freeze gives the frozen hash, and freezing again freezes the same body.
  lemma FreezeIsFixpoint(s: State, actor: string, again: string)
    requires ReadFreeze(s, actor, true).Ok?
    ensures var t := CommitFreeze(s, ReadFreeze(s, actor, true).value);
            && CurrentFileHash(t) == Ok(t.fileHash) && !ChangedSinceFrozen(t)
            && ReadFreeze(t, again, true).Ok? && Some(Sha256(ReadFreeze(t, again, true).value.body)) == t.fileHash
  {
    FreezeMovesNothing(s, ReadFreeze(s, actor, true).value);
  }

  // A file freezes exactly when the product is in scope, the plan covers it, the
  // retention date exists, and no mandatory section has a hole; a section left
  // for the declaration is no reason to refuse.
  lemma FreezesExactlyWhenWhole(s: State, actor: string, covered: bool)
    ensures ReadFreeze(s, actor, covered).Ok? <==>
            s.content.inScope == Some(true) && covered && RetentionFits(s.content) && NoHoles(s.content, s.evidence)
  {
    CompleteMeansNoHoles(s.content, s.declarationHash.Some?, s.evidence);
  }

  lemma MissingListed(s: State, slot: Slot)
    ensures slot in Map(MissingSections(FileNow(s).slots), SlotOfView) <==> !Filled(slot, s.content, s.evidence)
  {
    EverySlotListed();
    KeysKept(SLOTS, Viewer(s.content, s.declarationHash.Some?, s.evidence, Currency(s.content, s.evidence)), Missing,
             SlotOfView, slot);
    FilledViews(slot, s.content, s.declarationHash.Some?, s.evidence);
  }

  // What a freeze answers, in the order it asks; a refusal for holes names
  // exactly the sections that have one, and what is frozen is the file as it is.
  lemma FreezeAnswers(s: State, actor: string, covered: bool, slot: Slot)
    ensures var r, scoped := ReadFreeze(s, actor, covered), s.content.inScope == Some(true);
            && (r == Err(NotInScope) <==> !scoped)
            && (r == Err(PlanDoesNotCover) <==> scoped && !covered)
            && (r == Err(RetentionOutOfCalendar) <==> scoped && covered && !RetentionFits(s.content))
            && (r.Err? && r.error.SectionsMissing? <==>
                scoped && covered && RetentionFits(s.content) && !NoHoles(s.content, s.evidence))
            && (r.Err? && r.error.SectionsMissing? ==>
                  (slot in r.error.slots <==> !Filled(slot, s.content, s.evidence)))
            && (r.Ok? ==> r.value == Freeze(FileBody(FileNow(s)), actor))
  {
    FreezesExactlyWhenWhole(s, actor, covered);
    MissingListed(s, slot);
  }

  // A frozen file leaves no point of Part I open: each is ruled out with a reason,
  // or done and evidenced.
  lemma FrozenMeansAnswered(s: State, actor: string, covered: bool, r: Requirement)
    requires ReadFreeze(s, actor, covered).Ok? && r in s.content.requirements && PartIPoint(r.id)
    ensures || (r.applicability == NotApplicable && Says(r.justification))
            || (r.applicability == Applicable && r.status in {Implemented, Verified} && r.evidenceIds != [])
  {
    FreezesExactlyWhenWhole(s, actor, covered);
    assert Filled(RiskAssessment, s.content, s.evidence);
  }

  // One point left open is enough to refuse, naming the risk section.
  lemma OpenPointRefusesFreeze(s: State, actor: string, r: Requirement)
    requires s.content.inScope == Some(true) && RetentionFits(s.content)
    requires r in s.content.requirements && PartIPoint(r.id)
    requires || r.applicability == Undetermined
             || (r.applicability == NotApplicable && !Says(r.justification))
             || (r.applicability == Applicable && (r.status in {NotStarted, InProgress} || r.evidenceIds == []))
    ensures var answer := ReadFreeze(s, actor, true);
            answer.Err? && answer.error.SectionsMissing? && RiskAssessment in answer.error.slots
  {
    assert !Answered(s.content, s.evidence, r);
    assert !Filled(RiskAssessment, s.content, s.evidence);
    FreezeAnswers(s, actor, true, RiskAssessment);
  }

  // ---- drafting always moves the hash ----

  // Ids below `n` only: every row the payload names was on record.
  ghost predicate IdsBelow(p: Payload, n: int) {
    |p.slots| == |SLOTS| && forall i :: i in p.slots[6].evidenceIds ==> i < n
  }

  lemma PayloadIdsBelow(s: State)
    ensures IdsBelow(FileNow(s), |s.evidence|)
  {
    SlotEvidenceInRange(s.evidence, DeclarationCopy);
  }

  lemma DraftMovesTheHash(s: State, d: Draft)
    requires CommitDraft(s, d).Ok?
    ensures var t := CommitDraft(s, d).value;
            && FileNow(t) != FileNow(s) && |s.evidence| in FileNow(t).slots[6].evidenceIds
            && FileNow(t).slots[6].complete
            && (NoHoles(t.content, t.evidence) <==> NoHoles(s.content, s.evidence))
            && (s.content.inScope == Some(true) && s.fileHash == Some(Sha256(FileBody(FileNow(s)))) ==>
              ChangedSinceFrozen(t))
  {
    var t := CommitDraft(s, d).value;
    DraftSeen(s.content, s.declarationHash.Some?, s.evidence, DraftRow(d));
    var before, after := FileNow(s).slots[6].evidenceIds, FileNow(t).slots[6].evidenceIds;
    assert after[|before|] == |s.evidence| && |s.evidence| in FileNow(t).slots[6].evidenceIds;
    PayloadIdsBelow(s);
    SameHoles(s, t);
  }

  lemma SameHoles(s: State, t: State)
    requires t.content == s.content
    requires forall k :: 0 <= k < |SLOTS| && k != 6 ==> FileNow(t).slots[k] == FileNow(s).slots[k]
    ensures NoHoles(t.content, t.evidence) <==> NoHoles(s.content, s.evidence)
  {
    forall slot ensures Filled(slot, t.content, t.evidence) <==> Filled(slot, s.content, s.evidence) {
      EverySlotListed();
      assert slot in SLOTS;
      var k :| 0 <= k < |SLOTS| && SLOTS[k] == slot;
      FilledViews(slot, s.content, s.declarationHash.Some?, s.evidence);
      FilledViews(slot, t.content, t.declarationHash.Some?, t.evidence);
      assert k != 6 ==> FileNow(t).slots[k] == FileNow(s).slots[k];
    }
  }

  lemma SigningMovesNothing(s: State, g: Signature)
    requires CommitSign(s, g).Ok?
    ensures FileNow(CommitSign(s, g).value) == FileNow(s)
  {
  }

  // ---- the whole sequence ----

  // No payload signed in this version names a row that is not yet on record.
  ghost predicate SignedIdsBelow(s: State) {
    forall a :: a in s.attestations && a.paper == FilePaper && a.bound.body.FileBody?
                && a.bound.body.payload.version == PAYLOAD_VERSION ==>
      IdsBelow(a.bound.body.payload, |s.evidence|)
  }

  // A basis is stated for a route the class opens, with the notified body where
  // one is mandatory.
  ghost predicate RouteOpen(c: ProductClass, args: DraftArgs) {
    && Says(args.basis)
    && (args.route == "notified_body"
        || (args.route == "self_assessment" && c != ImportantClassII && c != Critical
            && (c == ImportantClassI ==> args.inFull == Some(true))))
  }

  ghost predicate MayDeclare(c: Content, args: DraftArgs) {
    && c.role != OpenSourceSteward && RouteOpen(c.productClass, args)
    && (c.productClass == ImportantClassII || c.productClass == Critical ==> args.notifiedBody != "")
  }

  lemma RouteExactly(c: ProductClass, args: DraftArgs)
    ensures CheckRoute(c, args) == None <==> RouteOpen(c, args)
    ensures var known := args.route in {"self_assessment", "notified_body"};
            var alone := args.route == "self_assessment";
            && (CheckRoute(c, args) == Some(RouteUnknown) <==> !known)
            && (CheckRoute(c, args) == Some(RouteWithoutBasis) <==> known && !Says(args.basis))
            && (CheckRoute(c, args) == Some(RouteNeedsNotifiedBody) <==>
                alone && Says(args.basis) && c in {ImportantClassII, Critical})
            && (CheckRoute(c, args) == Some(RouteNeedsFullStandards) <==>
                alone && Says(args.basis) && c == ImportantClassI && args.inFull != Some(true))
  {
    BlankExactly(args.basis);
  }

  ghost predicate NamesASigner(args: SignArgs) {
    args.paper == FilePaper && Says(args.name) && Says(args.role) && Says(args.statement)
  }

  // What a draft answers, in the order it asks.
  lemma DraftAnswers(s: State, actor: string, args: DraftArgs, now: int)
    ensures var r, c := ReadDraft(s, actor, args, now), s.content.productClass;
            && (r == Err(Steward) <==> s.content.role == OpenSourceSteward)
            && (r == Err(NotInScope) <==> s.content.role != OpenSourceSteward && s.content.inScope != Some(true))
            && (s.content.role != OpenSourceSteward && s.content.inScope == Some(true) ==>
                  && (r == Err(NothingFrozen) <==> s.fileHash.None?)
                  && (s.fileHash.Some? ==>
                        && (r.Ok? <==> MayDeclare(s.content, args))
                        && (r == Err(NotifiedBodyUnnamed) <==> RouteOpen(c, args) && !MayDeclare(s.content, args))
                        && (!RouteOpen(c, args) ==> r.Err? && Some(r.error) == CheckRoute(c, args))))
  {
    RouteExactly(s.content.productClass, args);
  }

  // Committing a draft files one document under the declaration's section, by whom
  // it was drafted, and records its digest, row, claim and missing fields together.
  lemma DraftCommits(s: State, d: Draft)
    ensures CommitDraft(s, d).Ok? <==> RetentionFits(s.content)
    ensures CommitDraft(s, d).Ok? ==>
              var t, body := CommitDraft(s, d).value, DeclarationBody(d.declaration);
              && |t.evidence| == |s.evidence| + 1 && t.evidence[..|s.evidence|] == s.evidence
              && var row := t.evidence[|s.evidence|];
              && row.subject == SlotOf(DeclarationCopy) && row.kind == Document && !row.deleted
              && row.addedBy == d.actor && row.body == body && row.sha256 == Sha256(body) && row.version == None
              && t.declarationEvidence == Some(|s.evidence|) && t.declarationHash == Some(row.sha256)
              && t.claim == d.declaration.claim && t.declarationMissing == d.missing
              && t.content == s.content && t.attestations == s.attestations
              && t.fileHash == s.fileHash && t.fileEvidence == s.fileEvidence
  {
  }

  // Committing a freeze files the snapshot, by whom it was frozen, and points at it.
  lemma FreezeCommits(s: State, f: Freeze)
    ensures var t := CommitFreeze(s, f);
            && |t.evidence| == |s.evidence| + 1 && t.evidence[..|s.evidence|] == s.evidence
            && var row := t.evidence[|s.evidence|];
            && row.subject == Assembled && row.kind == Document && !row.deleted && row.addedBy == f.actor
            && row.body == f.body && row.sha256 == Sha256(f.body) && row.version == None
            && t.fileEvidence == Some(|s.evidence|) && t.fileHash == Some(row.sha256)
            && t.content == s.content && t.claim == s.claim && t.attestations == s.attestations
            && t.declarationHash == s.declarationHash && t.declarationEvidence == s.declarationEvidence
            && t.declarationMissing == s.declarationMissing
  {
  }

  // What a signature answers, in the order it asks, and what it says: the paper's
  // recorded version and row, who signed, and the three texts trimmed.
  lemma SignAnswers(s: State, signer: string, args: SignArgs)
    ensures var r := ReadSign(s, signer, args);
            var hash := if args.paper == FilePaper then s.fileHash else s.declarationHash;
            && (r == Err(NothingFrozen) <==> hash.None?)
            && (r == Err(SignerBlank) <==> hash.Some? && !(Says(args.statement) && Says(args.name) && Says(args.role)))
            && (r == Err(FieldsMissing(s.declarationMissing)) <==>
                hash.Some? && Says(args.statement) && Says(args.name) && Says(args.role)
                && args.paper == DeclarationPaper && s.declarationMissing != [])
            && (r.Err? ==> r.error.NothingFrozen? || r.error.SignerBlank? || r.error.FieldsMissing?)
            && (r.Ok? ==>
                  && var a := r.value.attestation;
                  && a.paper == args.paper && Some(a.bound) == hash && a.version == Some(3) && a.signer == signer
                  && a.evidence == (if args.paper == FilePaper then s.fileEvidence else s.declarationEvidence)
                  && a.name == Strip(args.name) && a.role == Strip(args.role) && a.statement == Strip(args.statement)
                  && (r.value.independent <==> args.independent) && (r.value.retained <==> RetentionFits(s.content)))
  {
    BlankExactly(args.statement);
    BlankExactly(args.name);
    BlankExactly(args.role);
  }

  // The signature claims independence, and its signer is who froze the file.
  predicate VouchesForOneself(actor: string, signer: string, args: SignArgs) {
    args.independent && actor != "" && signer == actor
  }

  lemma NewIdsAreUnsigned(s: State, p: Payload)
    requires SignedIdsBelow(s) && p.version == PAYLOAD_VERSION && !IdsBelow(p, |s.evidence|)
    ensures !Signed(s.attestations, FilePaper, Sha256(FileBody(p)))
  {
  }

  lemma LatestIsTheFreezer(s: State, f: Freeze)
    ensures LastEditor(CommitFreeze(s, f).evidence) == Some(f.actor)
  {
  }

  // A file that could not be signed twice freezes and signs in one go, unless the
  // freezer claims to sign it independently.
  lemma FreezeThenSign(s: State, actor: string, signer: string, sign: SignArgs)
    requires ReadFreeze(s, actor, true).Ok? && NamesASigner(sign)
    requires !Signed(s.attestations, FilePaper, Sha256(FileBody(FileNow(s))))
    ensures var whole := CommitFreeze(s, ReadFreeze(s, actor, true).value);
            var signature := ReadSign(whole, signer, sign);
            && signature.Ok? && whole.fileHash == Some(Sha256(FileBody(FileNow(s))))
            && if VouchesForOneself(actor, signer, sign) then CommitSign(whole, signature.value) == Err(NotIndependent)
               else
                 CommitSign(whole, signature.value).Ok?
                 && var signed := CommitSign(whole, signature.value).value;
                 && signed.attestations == s.attestations + [signature.value.attestation]
                 && signature.value.attestation.signer == signer
                 && ReadingOf(signed, signature.value.attestation) == Ok(CurrentReading)
                 && FileNow(signed) == FileNow(s) && !ChangedSinceFrozen(signed)
                 && signed.declarationEvidence == s.declarationEvidence
  {
    var freeze := ReadFreeze(s, actor, true).value;
    FreezeMovesNothing(s, freeze);
    var whole := CommitFreeze(s, freeze);
    LatestIsTheFreezer(s, freeze);
    SignAnswers(whole, signer, sign);
    if !VouchesForOneself(actor, signer, sign) {
      SigningMovesNothing(whole, ReadSign(whole, signer, sign).value);
    }
  }

  lemma FreezeThenDeclare(s: State, actor: string, draft: DraftArgs, now: int)
    requires s.content.inScope == Some(true) && RetentionFits(s.content) && NoHoles(s.content, s.evidence)
    requires MayDeclare(s.content, draft)
    ensures var first := ReadFreeze(s, actor, true);
            && first.Ok?
            && var frozen := CommitFreeze(s, first.value);
               var drafted := ReadDraft(frozen, actor, draft, now);
            && drafted.Ok? && CommitDraft(frozen, drafted.value).Ok?
            && var declared := CommitDraft(frozen, drafted.value).value;
            && ReadFreeze(declared, actor, true).Ok? && ChangedSinceFrozen(declared)
            && FileNow(declared).slots[6].complete && |s.evidence| + 1 in FileNow(declared).slots[6].evidenceIds
            && declared.attestations == s.attestations && declared.declarationEvidence == Some(|s.evidence| + 1)
            && frozen.fileHash != Some(Sha256(FileBody(FileNow(declared))))
  {
    FreezesExactlyWhenWhole(s, actor, true);
    RouteExactly(s.content.productClass, draft);
    var frozen := CommitFreeze(s, ReadFreeze(s, actor, true).value);
    FreezeMovesNothing(s, ReadFreeze(s, actor, true).value);
    var draftOf := ReadDraft(frozen, actor, draft, now).value;
    DraftMovesTheHash(frozen, draftOf);
    FreezesExactlyWhenWhole(CommitDraft(frozen, draftOf).value, actor, true);
  }

  // Freeze, declare against the frozen file, re-freeze with the declaration in it, sign.
  function Cycle(s: State, actor: string, draft: DraftArgs, now: int, signer: string, sign: SignArgs)
    : Result<State, Refusal>
  {
    match ReadFreeze(s, actor, true)
    case Err(e) => Err(e)
    case Ok(f) =>
      var frozen := CommitFreeze(s, f);
      match ReadDraft(frozen, actor, draft, now)
      case Err(e) => Err(e)
      case Ok(d) =>
        match CommitDraft(frozen, d)
        case Err(e) => Err(e)
        case Ok(declared) =>
          match ReadFreeze(declared, actor, true)
          case Err(e) => Err(e)
          case Ok(g) =>
            var whole := CommitFreeze(declared, g);
            match ReadSign(whole, signer, sign)
            case Err(e) => Err(e)
            case Ok(signature) => CommitSign(whole, signature)
  }

  // From a record with no mandatory hole every step goes through, whoever signs
  // and however, unless who froze claims to sign independently: the declaration's
  // own section never stands in the way, and the signature covers a file that
  // holds the declaration.
  lemma NothingDeadlocks(s: State, actor: string, draft: DraftArgs, now: int, signer: string, sign: SignArgs)
    requires s.content.inScope == Some(true) && RetentionFits(s.content) && NoHoles(s.content, s.evidence)
    requires MayDeclare(s.content, draft) && NamesASigner(sign) && SignedIdsBelow(s)
    ensures VouchesForOneself(actor, signer, sign) ==> Cycle(s, actor, draft, now, signer, sign) == Err(NotIndependent)
    ensures !VouchesForOneself(actor, signer, sign) ==>
              Cycle(s, actor, draft, now, signer, sign).Ok?
              && var t := Cycle(s, actor, draft, now, signer, sign).value;
              && |t.attestations| == |s.attestations| + 1
              && ReadingOf(t, t.attestations[|s.attestations|]) == Ok(CurrentReading)
              && t.attestations[|s.attestations|].signer == signer
              && !ChangedSinceFrozen(t) && FileNow(t).slots[6].complete
                && t.declarationEvidence == Some(|s.evidence| + 1)
              && |s.evidence| + 1 in FileNow(t).slots[6].evidenceIds
  {
    FreezeThenDeclare(s, actor, draft, now);
    var frozen := CommitFreeze(s, ReadFreeze(s, actor, true).value);
    var declared := CommitDraft(frozen, ReadDraft(frozen, actor, draft, now).value).value;
    NewIdsAreUnsigned(s, FileNow(declared));
    FreezeThenSign(declared, actor, signer, sign);
  }

  // ---- what a signature reads as ----

  // Under the current payload version a file signature reads current exactly
  // while the file says what was signed; out of scope it is read against the
  // frozen hash; an older version is never called superseded.
  lemma SignatureTracksTheFile(s: State, a: Attestation, signed: Payload)
    requires a.paper == FilePaper && a.bound == Sha256(FileBody(signed)) && s.fileHash.Some?
    ensures a.version != Some(3) && CurrentFileHash(s).Ok? ==> ReadingOf(s, a) == Ok(IncomparableReading)
    ensures a.version == Some(3) && s.content.inScope == Some(true) && RetentionFits(s.content) ==>
              ReadingOf(s, a) == Ok(if FileNow(s) == signed then CurrentReading else SupersededReading)
    ensures a.version == Some(3) && s.content.inScope != Some(true) ==>
              ReadingOf(s, a) == Ok(if s.fileHash == Some(a.bound) then CurrentReading else SupersededReading)
    ensures ReadingOf(s, a).Err? <==> s.content.inScope == Some(true) && !RetentionFits(s.content)
  {
  }

  // A declaration signature of this version reads current exactly while the
  // declaration on record is the one signed.
  lemma DeclarationReads(s: State, a: Attestation)
    requires a.paper == DeclarationPaper && a.version == Some(3) && ReadingOf(s, a).Ok?
    ensures ReadingOf(s, a) == Ok(if s.declarationHash == Some(a.bound) then CurrentReading else SupersededReading)
  {
  }

  // The same assessment, as far as a file shows it.
  predicate SameAssessment(a: Option<Assessment>, b: Option<Assessment>) {
    && (a.Some? <==> b.Some?)
    && (a.Some? ==> a.value.version == b.value.version && a.value.contentHash == b.value.contentHash
                    && a.value.evidenceId == b.value.evidenceId)
  }

  // Agreement on everything a file says, whatever order it was recorded in:
  // what it documents, on which evidence, under which claim.
  ghost predicate SayTheSame(s: State, t: State) {
    && RequirementsAgree(s.content.requirements, t.content.requirements)
    && SameMembers(s.content.userInformation, t.content.userInformation)
    && s.content.name == t.content.name && s.content.role == t.content.role
    && s.content.productClass == t.content.productClass && s.content.permittedRoute == t.content.permittedRoute
    && s.claim == t.claim && LatestRelease(s.content.releases) == LatestRelease(t.content.releases)
    && s.content.support.dates == t.content.support.dates
    && SameAssessment(s.content.assessment, t.content.assessment)
    && forall slot :: SlotEvidence(s.evidence, slot) == SlotEvidence(t.evidence, slot)
  }

  lemma SectionAt(s: State, k: nat)
    requires k < |SLOTS|
    ensures |FileNow(s).slots| == |SLOTS|
    ensures FileNow(s).slots[k]
            == ViewOf(SLOTS[k], s.content, s.declarationHash.Some?, s.evidence, Currency(s.content, s.evidence))
  {
  }

  lemma SectionEvidence(s: State, slot: Slot) returns (k: nat)
    ensures k < |SLOTS| && SLOTS[k] == slot && |FileNow(s).slots| == |SLOTS|
    ensures FileNow(s).slots[k].evidenceIds == SlotEvidence(s.evidence, slot)
  {
    EverySlotListed();
    assert slot in SLOTS;
    k :| 0 <= k < |SLOTS| && SLOTS[k] == slot;
    SectionAt(s, k);
  }

  lemma SectionDetails(s: State)
    ensures |FileNow(s).slots| == |SLOTS|
    ensures FileNow(s).slots[2].detail == CoverageView(s.content, Currency(s.content, s.evidence)).0
    ensures FileNow(s).slots[3].detail == Period(s.content.support.dates)
  {
    SectionAt(s, 2);
    SectionAt(s, 3);
  }

  lemma SameDetails(s: State, t: State)
    requires FileNow(s).slots == FileNow(t).slots
    ensures s.content.support.dates == t.content.support.dates
    ensures SameAssessment(s.content.assessment, t.content.assessment)
  {
    SectionDetails(s);
    SectionDetails(t);
  }

  lemma SameEvidence(s: State, t: State, slot: Slot)
    requires FileNow(s).slots == FileNow(t).slots
    ensures SlotEvidence(s.evidence, slot) == SlotEvidence(t.evidence, slot)
  {
    var j := SectionEvidence(s, slot);
    var k := SectionEvidence(t, slot);
    SlotsDiffer(j, k);
  }

  lemma SlotsDiffer(j: nat, k: nat)
    requires j < |SLOTS| && k < |SLOTS| && SLOTS[j] == SLOTS[k]
    ensures j == k
  {
  }

  lemma SameSections(s: State, t: State)
    requires FileNow(s).slots == FileNow(t).slots
    ensures s.content.support.dates == t.content.support.dates
    ensures SameAssessment(s.content.assessment, t.content.assessment)
    ensures forall slot :: SlotEvidence(s.evidence, slot) == SlotEvidence(t.evidence, slot)
  {
    SameDetails(s, t);
    forall slot ensures SlotEvidence(s.evidence, slot) == SlotEvidence(t.evidence, slot) {
      SameEvidence(s, t, slot);
    }
  }

  // While a signature reads current nothing the file says was rewritten since it
  // was taken, and rewriting any of it supersedes the signature.
  lemma RewritingSupersedes(signing: State, now: State, a: Attestation)
    requires a.paper == FilePaper && a.bound == Sha256(FileBody(FileNow(signing)))
    requires a.version == Some(PAYLOAD_VERSION) && now.fileHash.Some? && now.content.inScope == Some(true)
    requires DistinctBy(signing.content.requirements, RequirementId)
             && DistinctBy(now.content.requirements, RequirementId)
    requires DistinctBy(signing.content.userInformation, ItemId) && DistinctBy(now.content.userInformation, ItemId)
    ensures ReadingOf(now, a) == Ok(CurrentReading) ==> SayTheSame(signing, now)
    ensures RetentionFits(now.content) && !SayTheSame(signing, now) ==> ReadingOf(now, a) == Ok(SupersededReading)
  {
    NarrativeIsCanonical(signing.content.requirements, signing.content.userInformation,
                         now.content.requirements, now.content.userInformation);
    if FileNow(now) == FileNow(signing) {
      SameSections(signing, now);
    }
  }

  // ---- what a declaration may claim and leave blank ----

  ghost predicate HoldsField(fields: map<DocField, string>, c: Content, args: DraftArgs, f: DocField) {
    (f in fields <==> FieldValue(f, c, args).Some?) && (f in fields ==> fields[f] == FieldValue(f, c, args).value)
  }

  lemma FieldAt(c: Content, args: DraftArgs, f: DocField)
    ensures HoldsField(FieldValues(DOC_FIELDS, c, args), c, args, f)
  {
    EveryFieldListed(f);
  }

  lemma MissingIsUnfilled(values: map<DocField, string>, f: DocField)
    ensures f in MissingFields(values) <==> Unfilled(values, f)
  {
    FilterMembers(DOC_FIELDS, (g: DocField) => Unfilled(values, g));
    EveryFieldListed(f);
  }

  // A field is missing exactly when the record or the caller left it empty.
  lemma MissingExactly(c: Content, args: DraftArgs, f: DocField)
    ensures f in MissingFields(FieldValues(DOC_FIELDS, c, args)) <==>
            || (f in {Doc1, Doc4} && args.product == "" && c.name == "")
            || (f == Doc2 && !(Says(c.legalName) && Says(c.postalAddress)))
            || (f == Doc6 && args.standards == "")
            || (f == Doc7 && args.notifiedBody == "" && c.productClass in {ImportantClassII, Critical})
  {
    MissingIsUnfilled(FieldValues(DOC_FIELDS, c, args), f);
    FieldAt(c, args, f);
    UnfilledExactly(FieldValues(DOC_FIELDS, c, args), c, args, f);
  }

  lemma UnfilledExactly(fields: map<DocField, string>, c: Content, args: DraftArgs, f: DocField)
    requires HoldsField(fields, c, args, f)
    ensures Unfilled(fields, f) <==>
            || (f in {Doc1, Doc4} && args.product == "" && c.name == "")
            || (f == Doc2 && !(Says(c.legalName) && Says(c.postalAddress)))
            || (f == Doc6 && args.standards == "")
            || (f == Doc7 && args.notifiedBody == "" && c.productClass in {ImportantClassII, Critical})
  {
    BlankExactly(c.legalName);
    BlankExactly(c.postalAddress);
  }

  // A draft claims only a route its class opens, with a basis, names the notified
  // body where one is mandatory, and so can miss only its subject, its
  // manufacturer or its standards.
  lemma DraftsAreHonest(s: State, actor: string, args: DraftArgs, now: int, f: DocField)
    requires ReadDraft(s, actor, args, now).Ok?
    ensures var d, c := ReadDraft(s, actor, args, now).value, s.content;
            && Says(d.declaration.claim.basis) && d.declaration.claim.route in {"self_assessment", "notified_body"}
            && (c.productClass in {ImportantClassII, Critical} ==>
                  d.declaration.claim.route == "notified_body" && args.notifiedBody != "")
            && (c.productClass == ImportantClassI && d.declaration.claim.route == "self_assessment" ==>
                  d.declaration.claim.inFull == Some(true))
            && Some(d.declaration.technicalFile) == s.fileHash
            && (f in d.missing <==>
                  || (f in {Doc1, Doc4} && args.product == "" && c.name == "")
                  || (f == Doc2 && !(Says(c.legalName) && Says(c.postalAddress)))
                  || (f == Doc6 && args.standards == ""))
  {
    StripTwice(args.basis);
    BlankExactly(Strip(args.basis));
    MissingExactly(s.content, args, f);
  }

  // What the fields of a declaration say: the product as the caller names it or
  // else as recorded, the manufacturer's trimmed name and address, the standards
  // and the notified body as given, and three fixed texts.
  ghost predicate FieldsSay(fields: map<DocField, string>, c: Content, args: DraftArgs) {
    && Doc1 in fields && Doc4 in fields && fields[Doc1] == fields[Doc4]
    && (args.product != "" ==> fields[Doc1] == args.product) && (args.product == "" ==> fields[Doc1] == c.name)
    && (Doc2 in fields <==> Says(c.legalName) && Says(c.postalAddress))
    && (Doc2 in fields ==> fields[Doc2] == Strip(c.legalName) + "\n" + Strip(c.postalAddress))
    && (Doc6 in fields <==> args.standards != "") && (Doc6 in fields ==> fields[Doc6] == args.standards)
    && (args.notifiedBody != "" ==> Doc7 in fields && fields[Doc7] == args.notifiedBody)
    && (Doc7 !in fields <==> args.notifiedBody == "" && c.productClass in {ImportantClassII, Critical})
    && forall f :: f in {Doc3, Doc5, Doc8} ==> f in fields && fields[f] != ""
  }

  lemma GivenFieldsFollow(fields: map<DocField, string>, c: Content, args: DraftArgs)
    requires forall f :: HoldsField(fields, c, args, f)
    ensures Doc1 in fields && Doc4 in fields && fields[Doc1] == fields[Doc4]
    ensures fields[Doc1] == if args.product != "" then args.product else c.name
    ensures forall f :: f in {Doc3, Doc5, Doc8} ==> f in fields && fields[f] != ""
  {
    assert HoldsField(fields, c, args, Doc1) && HoldsField(fields, c, args, Doc3) && HoldsField(fields, c, args, Doc4);
    assert HoldsField(fields, c, args, Doc5) && HoldsField(fields, c, args, Doc8);
  }

  lemma FieldsFollow(fields: map<DocField, string>, c: Content, args: DraftArgs)
    requires forall f :: HoldsField(fields, c, args, f)
    ensures FieldsSay(fields, c, args)
  {
    BlankExactly(c.legalName);
    BlankExactly(c.postalAddress);
    GivenFieldsFollow(fields, c, args);
    assert HoldsField(fields, c, args, Doc2) && HoldsField(fields, c, args, Doc6) && HoldsField(fields, c, args, Doc7);
  }

  lemma FieldsSayIt(c: Content, args: DraftArgs)
    ensures FieldsSay(FieldValues(DOC_FIELDS, c, args), c, args)
  {
    forall f ensures HoldsField(FieldValues(DOC_FIELDS, c, args), c, args, f) {
      FieldAt(c, args, f);
    }
    FieldsFollow(FieldValues(DOC_FIELDS, c, args), c, args);
  }

  // What a declaration says, the route and basis it claims, and the frozen file it
  // was drawn up against.
  lemma DraftSays(s: State, actor: string, args: DraftArgs, now: int)
    requires ReadDraft(s, actor, args, now).Ok?
    ensures var draft := ReadDraft(s, actor, args, now).value;
            && FieldsSay(draft.declaration.fields, s.content, args)
            && draft.declaration.claim == Claim(args.route, Strip(args.basis), args.inFull)
            && Some(draft.declaration.technicalFile) == s.fileHash
            && draft.declaration.draftedAt == now && draft.actor == actor
  {
    FieldsSayIt(s.content, args);
  }

  lemma EveryFieldListed(f: DocField)
    ensures f in DOC_FIELDS
  {
    var i := match f
      case Doc1 => 0 case Doc2 => 1 case Doc3 => 2 case Doc4 => 3
      case Doc5 => 4 case Doc6 => 5 case Doc7 => 6 case Doc8 => 7;
    assert DOC_FIELDS[i] == f;
  }

  // ---- independence of the signer ----

  // Row `i` is the latest filed under a section, and this person filed it.
  ghost predicate FiledLast(rows: seq<Evidence>, i: int, person: string) {
    && 0 <= i < |rows| && (rows[i].subject.SlotOf? || rows[i].subject == Assembled) && rows[i].addedBy == person
    && forall j :: i < j < |rows| ==> !rows[j].subject.SlotOf? && rows[j].subject != Assembled
  }

  lemma {:induction false} LastEditorFiledLast(rows: seq<Evidence>, person: string)
    ensures LastEditor(rows) == Some(person) <==> exists i :: FiledLast(rows, i, person)
  {
    if rows != [] {
      var n := |rows| - 1;
      LastEditorFiledLast(rows[..n], person);
      if UnderSection(rows[n]) {
        assert rows[n].addedBy == person ==> FiledLast(rows, n, person);
      } else {
        if i :| FiledLast(rows[..n], i, person) {
          assert FiledLast(rows, i, person);
        }
        if i :| FiledLast(rows, i, person) {
          assert FiledLast(rows[..n], i, person);
        }
      }
    }
  }

  // An independent signature on an unsigned version is refused as not independent
  // exactly when the signer filed the latest row under a section; what anybody
  // wrote into the record without filing plays no part.
  lemma IndependenceSeesFilingsOnly(s: State, g: Signature, edited: Content)
    requires g.independent && !Signed(s.attestations, g.attestation.paper, g.attestation.bound)
    ensures CommitSign(s, g) == Err(NotIndependent) <==>
            g.attestation.signer != "" && exists i :: FiledLast(s.evidence, i, g.attestation.signer)
    ensures CommitSign(s.(content := edited), g).Ok? <==> CommitSign(s, g).Ok?
  {
    LastEditorFiledLast(s.evidence, g.attestation.signer);
  }

  // A signature is taken once per version of each paper: it commits, and adds
  // itself alone, unless this very version of this paper is signed already, the
  // signer claims independence of a filing of their own, or the archive date does
  // not exist.
  lemma SignatureCommits(s: State, g: Signature)
    ensures var r, a := CommitSign(s, g), g.attestation;
            var signed := exists i :: 0 <= i < |s.attestations| && s.attestations[i].paper == a.paper
                                      && s.attestations[i].bound == a.bound;
            var alone := g.independent && a.signer != "" && exists i :: FiledLast(s.evidence, i, a.signer);
            && (r == Err(AlreadySigned) <==> signed)
            && (r == Err(NotIndependent) <==> !signed && alone)
            && (r == Err(RetentionOutOfCalendar) <==> !signed && !alone && !g.retained)
            && (r.Ok? <==> !signed && !alone && g.retained)
            && (r.Ok? ==> r.value == s.(attestations := s.attestations + [a]))
  {
    LastEditorFiledLast(s.evidence, g.attestation.signer);
    if i :| 0 <= i < |s.attestations| && s.attestations[i].paper == g.attestation.paper
            && s.attestations[i].bound == g.attestation.bound {
      assert s.attestations[i] in s.attestations;
    }
  }

  // Whoever froze last therefore cannot attest to it alone.
  lemma FreezerCannotSignAlone(s: State, f: Freeze, g: Signature)
    requires g.independent && !Signed(s.attestations, g.attestation.paper, g.attestation.bound)
    requires f.actor != "" && f.actor == g.attestation.signer
    ensures CommitSign(CommitFreeze(s, f), g) == Err(NotIndependent)
  {
    assert FiledLast(CommitFreeze(s, f).evidence, |s.evidence|, f.actor);
    IndependenceSeesFilingsOnly(CommitFreeze(s, f), g, s.content);
  }
}
