// Freezing the technical file, drawing up the declaration against it, and
// signing either (src/cra/server/conformity.py).  Each operation reads one
// snapshot of the record and commits against a later one, so it is modelled as
// a read step and a commit step.
module Conformity {
  import opened Ordering
  import opened Calendar
  import opened Narrative
  import opened Retention
  import opened Strings
  import opened TechnicalFile

  datatype Paper = FilePaper | DeclarationPaper

  // `version` is None on rows signed before the payload was versioned.
  datatype Attestation = Attestation(
    paper: Paper, evidence: Option<int>, bound: Digest, version: Option<int>,
    signer: string, name: string, role: string, statement: string)

  datatype State = State(
    content: Content, claim: Claim,
    fileHash: Option<Digest>, fileEvidence: Option<int>,
    declarationHash: Option<Digest>, declarationEvidence: Option<int>, declarationMissing: seq<DocField>,
    evidence: seq<Evidence>, attestations: seq<Attestation>)

  datatype Refusal =
    | NotInScope | PlanDoesNotCover | RetentionOutOfCalendar | SectionsMissing(slots: seq<Slot>)
    | Steward | NothingFrozen | RouteUnknown | RouteWithoutBasis | RouteNeedsNotifiedBody | RouteNeedsFullStandards
    | NotifiedBodyUnnamed | SignerBlank | FieldsMissing(fields: seq<DocField>) | AlreadySigned | NotIndependent

  function FileNow(s: State): Payload { Assemble(s.content, s.claim, s.declarationHash.Some?, s.evidence) }

  predicate RetentionFits(c: Content) { RetentionStatus(c.releases, c.support.dates.end).Ok? }

  // ---- freezing ----

  datatype Freeze = Freeze(body: Body, actor: string)

  function SlotOfView(v: SlotView): Slot { v.slot }

  // The blob is loaded first and the evidence rows after it, in a transaction of
  // their own: the file is assembled from the one over the other.
  function LoadedOver(blob: State, rows: seq<Evidence>): State { blob.(evidence := rows) }

  function ReadFreeze(s: State, actor: string, covered: bool): Result<Freeze, Refusal> {
    var missing := MissingSections(FileNow(s).slots);
    if s.content.inScope != Some(true) then Err(NotInScope)
    else if !covered then Err(PlanDoesNotCover)
    else if !RetentionFits(s.content) then Err(RetentionOutOfCalendar)
    else if missing != [] then Err(SectionsMissing(Map(missing, SlotOfView)))
    else Ok(Freeze(FileBody(FileNow(s)), actor))
  }

  function Snapshot(f: Freeze): Evidence { Evidence(Assembled, Document, None, f.body, Sha256(f.body), f.actor, false) }

  function CommitFreeze(s: State, f: Freeze): State {
    s.(evidence := s.evidence + [Snapshot(f)], fileHash := Some(Sha256(f.body)), fileEvidence := Some(|s.evidence|))
  }

  // ---- declaring ----

  // "" stands for an argument that was not given.
  datatype DraftArgs = DraftArgs(
    product: string, standards: string, notifiedBody: string, route: string, basis: string, inFull: Option<bool>)

  datatype Draft = Draft(declaration: Declaration, missing: seq<DocField>, actor: string)

  const SELF_ASSESSMENT := "self_assessment"
  const NOTIFIED_BODY := "notified_body"

  predicate NotifiedBodyRequired(c: ProductClass) { c == ImportantClassII || c == Critical }

  function CheckRoute(c: ProductClass, args: DraftArgs): Option<Refusal> {
    if args.route != SELF_ASSESSMENT && args.route != NOTIFIED_BODY then Some(RouteUnknown)
    else if Blank(args.basis) then Some(RouteWithoutBasis)
    else if NotifiedBodyRequired(c) && args.route != NOTIFIED_BODY then Some(RouteNeedsNotifiedBody)
    else if c == ImportantClassI && args.route == SELF_ASSESSMENT && args.inFull != Some(true)
    then Some(RouteNeedsFullStandards)
    else None
  }

  const DOC_FIELDS: seq<DocField> := [Doc1, Doc2, Doc3, Doc4, Doc5, Doc6, Doc7, Doc8]

  // None where the source leaves the field out of its dictionary.
  function FieldValue(f: DocField, c: Content, args: DraftArgs): Option<string> {
    match f
    case Doc1 => Some(if args.product != "" then args.product else c.name)
    case Doc2 =>
      if Blank(c.legalName) || Blank(c.postalAddress) then None
      else Some(Strip(c.legalName) + "\n" + Strip(c.postalAddress))
    case Doc3 => Some("sole responsibility of the provider")
    case Doc4 => Some(if args.product != "" then args.product else c.name)
    case Doc5 => Some("conformity with Union harmonisation legislation")
    case Doc6 => if args.standards != "" then Some(args.standards) else None
    case Doc7 =>
      if args.notifiedBody != "" then Some(args.notifiedBody)
      else if !NotifiedBodyRequired(c.productClass) then Some("not applicable")
      else None
    case Doc8 => Some("to be completed on signature")
  }

  function FieldValues(fields: seq<DocField>, c: Content, args: DraftArgs): map<DocField, string> {
    map f | f in fields && FieldValue(f, c, args).Some? :: FieldValue(f, c, args).value
  }

  predicate Unfilled(values: map<DocField, string>, f: DocField) { f !in values || values[f] == "" }

  function MissingFields(values: map<DocField, string>): seq<DocField> {
    Filter(DOC_FIELDS, (f: DocField) => Unfilled(values, f))
  }

  function ReadDraft(s: State, actor: string, args: DraftArgs, now: int): Result<Draft, Refusal> {
    if s.content.role == OpenSourceSteward then Err(Steward)
    else if s.content.inScope != Some(true) then Err(NotInScope)
    else if s.fileHash == None then Err(NothingFrozen)
    else if CheckRoute(s.content.productClass, args).Some? then Err(CheckRoute(s.content.productClass, args).value)
    else if NotifiedBodyRequired(s.content.productClass) && args.notifiedBody == "" then Err(NotifiedBodyUnnamed)
    else
      var values := FieldValues(DOC_FIELDS, s.content, args);
      var claim := Claim(args.route, Strip(args.basis), args.inFull);
      Ok(Draft(Declaration(values, claim, s.fileHash.value, now), MissingFields(values), actor))
  }

  function DraftRow(d: Draft): Evidence {
    var body := DeclarationBody(d.declaration);
    Evidence(SlotOf(DeclarationCopy), Document, None, body, Sha256(body), d.actor, false)
  }

  // The archive row needs the retention period of the record as it now stands.
  function CommitDraft(s: State, d: Draft): Result<State, Refusal> {
    if !RetentionFits(s.content) then Err(RetentionOutOfCalendar)
    else Ok(s.(
      evidence := s.evidence + [DraftRow(d)], claim := d.declaration.claim,
      declarationHash := Some(Sha256(DeclarationBody(d.declaration))), declarationEvidence := Some(|s.evidence|),
      declarationMissing := d.missing))
  }

  // ---- signing ----

  datatype SignArgs = SignArgs(paper: Paper, name: string, role: string, statement: string, independent: bool)

  datatype Signature = Signature(attestation: Attestation, independent: bool, retained: bool)

  function HashOf(s: State, paper: Paper): Option<Digest> {
    if paper == FilePaper then s.fileHash else s.declarationHash
  }

  function RowBehind(s: State, paper: Paper): Option<int> {
    if paper == FilePaper then s.fileEvidence else s.declarationEvidence
  }

  function ReadSign(s: State, actor: string, args: SignArgs): Result<Signature, Refusal> {
    if HashOf(s, args.paper) == None then Err(NothingFrozen)
    else if Blank(args.statement) || Blank(args.name) || Blank(args.role) then Err(SignerBlank)
    else if args.paper == DeclarationPaper && s.declarationMissing != [] then Err(FieldsMissing(s.declarationMissing))
    else Ok(Signature(
      Attestation(args.paper, RowBehind(s, args.paper), HashOf(s, args.paper).value, Some(PAYLOAD_VERSION),
                  actor, Strip(args.name), Strip(args.role), Strip(args.statement)),
      args.independent, RetentionFits(s.content)))
  }

  predicate Signed(attestations: seq<Attestation>, paper: Paper, hash: Digest) {
    exists a :: a in attestations && a.paper == paper && a.bound == hash
  }

  predicate UnderSection(e: Evidence) { e.subject.SlotOf? || e.subject == Assembled }

  // Who filed the latest row under any section, withdrawn rows included.
  function LastEditor(rows: seq<Evidence>): Option<string> {
    if rows == [] then None
    else
      var n := |rows| - 1;
      if UnderSection(rows[n]) then Some(rows[n].addedBy) else LastEditor(rows[..n])
  }

  function CommitSign(s: State, g: Signature): Result<State, Refusal> {
    var editor := LastEditor(s.evidence);
    if Signed(s.attestations, g.attestation.paper, g.attestation.bound) then Err(AlreadySigned)
    else if g.independent && editor.Some? && editor.value != "" && editor.value == g.attestation.signer
    then Err(NotIndependent)
    else if !g.retained then Err(RetentionOutOfCalendar)
    else Ok(s.(attestations := s.attestations + [g.attestation]))
  }

  // ---- status ----

  datatype Reading = CurrentReading | SupersededReading | IncomparableReading

  function CoverageOf(a: Attestation, current: Option<Digest>): Reading {
    if a.version != Some(PAYLOAD_VERSION) then IncomparableReading
    else if current == Some(a.bound) then CurrentReading
    else SupersededReading
  }

  // A file that can no longer be assembled keeps its frozen hash.
  function CurrentFileHash(s: State): Result<Option<Digest>, Refusal> {
    if s.fileHash == None || s.content.inScope != Some(true) then Ok(s.fileHash)
    else if !RetentionFits(s.content) then Err(RetentionOutOfCalendar)
    else Ok(Some(Sha256(FileBody(FileNow(s)))))
  }

  function ReadingOf(s: State, a: Attestation): Result<Reading, Refusal> {
    match CurrentFileHash(s)
    case Err(e) => Err(e)
    case Ok(hash) => Ok(CoverageOf(a, if a.paper == FilePaper then hash else s.declarationHash))
  }

  predicate ChangedSinceFrozen(s: State) {
    s.fileHash.Some? && CurrentFileHash(s).Ok? && CurrentFileHash(s).value != s.fileHash
  }

  // ---- the record, updated in place ----

  class Registry {
    var content: Content
    var claim: Claim
    var fileHash: Option<Digest>
    var fileEvidence: Option<int>
    var declarationHash: Option<Digest>
    var declarationEvidence: Option<int>
    var declarationMissing: seq<DocField>
    var evidence: seq<Evidence>
    var attestations: seq<Attestation>

    ghost function Now(): State
      reads this
    {
      State(content, claim, fileHash, fileEvidence, declarationHash, declarationEvidence, declarationMissing,
            evidence, attestations)
    }

    method Load() returns (blob: State)
      ensures blob == Now()
    {
      blob := State(content, claim, fileHash, fileEvidence, declarationHash, declarationEvidence, declarationMissing,
                    evidence, attestations);
    }

    // `blob` is what an earlier `Load` returned; the evidence rows are read now.
    method PrepareFreeze(blob: State, actor: string, covered: bool) returns (r: Result<Freeze, Refusal>)
      ensures r == ReadFreeze(LoadedOver(blob, Now().evidence), actor, covered)
    {
      if blob.content.inScope != Some(true) {
        return Err(NotInScope);
      }
      var views := AssembleViews(SLOTS, blob.content, blob.declarationHash.Some?, evidence);
      var missing := MissingSections(views);
      if !covered {
        return Err(PlanDoesNotCover);
      }
      if !RetentionFits(blob.content) {
        return Err(RetentionOutOfCalendar);
      }
      if missing != [] {
        return Err(SectionsMissing(Map(missing, SlotOfView)));
      }
      var payload := Payload(
        PAYLOAD_VERSION, blob.content.role, blob.content.name, blob.content.productClass, blob.content.permittedRoute,
        blob.claim, LatestRelease(blob.content.releases), views,
        Narrate(blob.content.requirements, blob.content.userInformation));
      r := Ok(Freeze(FileBody(payload), actor));
    }

    method ApplyFreeze(f: Freeze)
      modifies this
      ensures Now() == CommitFreeze(old(Now()), f)
    {
      var id := |evidence|;
      evidence := evidence + [Snapshot(f)];
      fileHash := Some(Sha256(f.body));
      fileEvidence := Some(id);
    }

    method PrepareDraft(actor: string, args: DraftArgs, now: int) returns (r: Result<Draft, Refusal>)
      ensures r == ReadDraft(Now(), actor, args, now)
    {
      if content.role == OpenSourceSteward {
        return Err(Steward);
      }
      if content.inScope != Some(true) {
        return Err(NotInScope);
      }
      if fileHash == None {
        return Err(NothingFrozen);
      }
      var refusal := CheckRoute(content.productClass, args);
      if refusal.Some? {
        return Err(refusal.value);
      }
      if NotifiedBodyRequired(content.productClass) && args.notifiedBody == "" {
        return Err(NotifiedBodyUnnamed);
      }
      var values := FillFields(content, args);
      var declaration := Declaration(values, Claim(args.route, Strip(args.basis), args.inFull), fileHash.value, now);
      r := Ok(Draft(declaration, MissingFields(values), actor));
    }

    method ApplyDraft(d: Draft) returns (r: Result<int, Refusal>)
      modifies this
      ensures r == if CommitDraft(old(Now()), d).Ok? then Ok(|old(evidence)|) else Err(RetentionOutOfCalendar)
      ensures Now() == if r.Ok? then CommitDraft(old(Now()), d).value else old(Now())
    {
      if !RetentionFits(content) {
        return Err(RetentionOutOfCalendar);
      }
      var id := |evidence|;
      evidence := evidence + [DraftRow(d)];
      claim := d.declaration.claim;
      declarationHash := Some(Sha256(DeclarationBody(d.declaration)));
      declarationEvidence := Some(id);
      declarationMissing := d.missing;
      r := Ok(id);
    }

    method ApplySignature(g: Signature) returns (r: Result<int, Refusal>)
      modifies this`attestations
      ensures r == match CommitSign(old(Now()), g) case Ok(_) => Ok(|old(attestations)|) case Err(e) => Err(e)
      ensures Now() == if r.Ok? then CommitSign(old(Now()), g).value else old(Now())
    {
      for n := 0 to |attestations|
        invariant !Signed(attestations[..n], g.attestation.paper, g.attestation.bound)
      {
        if attestations[n].paper == g.attestation.paper && attestations[n].bound == g.attestation.bound {
          return Err(AlreadySigned);
        }
      }
      assert attestations[..|attestations|] == attestations;
      var editor := LastEditor(evidence);
      if g.independent && editor.Some? && editor.value != "" && editor.value == g.attestation.signer {
        return Err(NotIndependent);
      }
      if !g.retained {
        return Err(RetentionOutOfCalendar);
      }
      r := Ok(|attestations|);
      attestations := attestations + [g.attestation];
    }
  }

  method FillFields(c: Content, args: DraftArgs) returns (values: map<DocField, string>)
    ensures values == FieldValues(DOC_FIELDS, c, args)
  {
    values := map[];
    for n := 0 to |DOC_FIELDS|
      invariant values == FieldValues(DOC_FIELDS[..n], c, args)
    {
      var f := DOC_FIELDS[n];
      var v := FieldValue(f, c, args);
      assert DOC_FIELDS[..n + 1] == DOC_FIELDS[..n] + [f];
      if v.Some? {
        values := values[f := v.value];
      }
    }
    assert DOC_FIELDS[..|DOC_FIELDS|] == DOC_FIELDS;
  }
}
