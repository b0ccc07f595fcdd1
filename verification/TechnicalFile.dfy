// The Annex VII technical file, section by section, and the payload its content
// hash is taken over (src/cra/server/conformity.py, `_evidence_by_subject`,
// `_slot_view` and `assemble_technical_file`; src/cra/server/annex.py,
// `evidence_currency` and `_is_gap`).
module TechnicalFile {
  import opened Ordering
  import opened Calendar
  import opened Narrative
  import opened Retention
  import opened Strings

  // ---- what the blob holds ----

  datatype OperatorRole = Manufacturer | AuthorisedRepresentative | Importer | Distributor | OpenSourceSteward

  datatype ProductClass = UnknownClass | OutOfScope | DefaultClass | ImportantClassI | ImportantClassII | Critical

  datatype Lifecycle = InDevelopment | PlacedOnMarket | SupportPeriodActive | SupportPeriodEnded | Withdrawn

  // `contentHash` is "" until the assessment is confirmed; `undecided` counts
  // its proposed risks.
  datatype Assessment = Assessment(
    version: int, contentHash: string, evidenceId: Option<int>, draft: bool, undecided: int,
    basisClass: Option<ProductClass>, basisLifecycle: Option<Lifecycle>)

  datatype Dates = Dates(
    start: Option<Civil>, end: Option<Civil>, expectedUseYears: Option<real>, url: string, determinedAt: Option<Civil>)

  datatype Support = Support(dates: Dates, rationale: string)

  // Everything other tools edit; the freeze and the declaration only read it.
  datatype Content = Content(
    name: string, role: OperatorRole, inScope: Option<bool>, productClass: ProductClass, permittedRoute: string,
    lifecycle: Lifecycle, legalName: string, postalAddress: string, releases: seq<Release>,
    requirements: seq<Requirement>, userInformation: seq<UserItem>, support: Support, assessment: Option<Assessment>)

  datatype Claim = Claim(route: string, basis: string, inFull: Option<bool>)

  // ---- the evidence table ----

  datatype Slot =
    | GeneralDescription | Processes | RiskAssessment | SupportDetermination
    | Standards | TestReports | DeclarationCopy | SbomOnRequest

  datatype Subject = SlotOf(slot: Slot) | Assembled | RequirementOf(id: string) | Elsewhere(ref: string)

  datatype Kind = Document | Sbom | OtherKind(name: string)

  // SHA-256 is a free constructor: equal digests exactly when equal bodies.
  datatype Digest = Sha256(body: Body)

  datatype Body = FileBody(payload: Payload) | DeclarationBody(declaration: Declaration) | Text(text: string)

  // A row's id is its position: rows are appended and never removed.
  datatype Evidence = Evidence(
    subject: Subject, kind: Kind, version: Option<string>, body: Body, sha256: Digest, addedBy: string, deleted: bool)

  datatype Declaration = Declaration(
    fields: map<DocField, string>, claim: Claim, technicalFile: Digest, draftedAt: int)

  datatype DocField = Doc1 | Doc2 | Doc3 | Doc4 | Doc5 | Doc6 | Doc7 | Doc8

  // ---- evidence by subject ----

  predicate Counts(e: Evidence, subject: Subject) { !e.deleted && e.subject == subject }

  function RowsOf(rows: seq<Evidence>, subject: Subject): seq<int> {
    if rows == [] then []
    else
      var n := |rows| - 1;
      RowsOf(rows[..n], subject) + if Counts(rows[n], subject) then [n] else []
  }

  lemma {:induction false} RowsOfMembers(rows: seq<Evidence>, subject: Subject)
    ensures forall i :: i in RowsOf(rows, subject) <==> 0 <= i < |rows| && Counts(rows[i], subject)
  {
    if rows != [] {
      RowsOfMembers(rows[..|rows| - 1], subject);
    }
  }

  ghost predicate Indexes(bySubject: map<Subject, seq<int>>, rows: seq<Evidence>) {
    forall subject :: RowsOf(rows, subject) == if subject in bySubject then bySubject[subject] else []
  }

  // The dictionary the source builds row by row is a lookup into the table.
  method EvidenceBySubject(rows: seq<Evidence>) returns (bySubject: map<Subject, seq<int>>)
    ensures Indexes(bySubject, rows)
  {
    bySubject := map[];
    for i := 0 to |rows|
      invariant Indexes(bySubject, rows[..i])
    {
      var e := rows[i];
      assert rows[..i + 1][..i] == rows[..i];
      if !e.deleted {
        var found := if e.subject in bySubject then bySubject[e.subject] else [];
        bySubject := bySubject[e.subject := found + [i]];
      }
    }
    assert rows[..|rows|] == rows;
  }

  // ---- is the evidence about what ships now ----

  datatype Verdict = CurrentEvidence | StaleEvidence | UnversionedEvidence

  predicate AnyVersion(rows: seq<Evidence>, ids: seq<int>, version: Option<string>) {
    exists i :: i in ids && 0 <= i < |rows| && rows[i].version == version
  }

  function VerdictOn(rows: seq<Evidence>, ids: seq<int>, version: string): Option<Verdict> {
    if ids == [] then None
    else if AnyVersion(rows, ids, Some(version)) then Some(CurrentEvidence)
    else if AnyVersion(rows, ids, None) then Some(UnversionedEvidence)
    else Some(StaleEvidence)
  }

  function VerdictFor(releases: seq<Release>, rows: seq<Evidence>, id: string): Option<Verdict> {
    match LatestRelease(releases)
    case None => None
    case Some(release) => VerdictOn(rows, RowsOf(rows, RequirementOf(id)), release.version)
  }

  function Ids(requirements: seq<Requirement>): set<string> { set r | r in requirements :: r.id }

  function CurrencyOf(requirements: seq<Requirement>, releases: seq<Release>, rows: seq<Evidence>)
    : map<string, Verdict>
  {
    map id | id in Ids(requirements) && VerdictFor(releases, rows, id).Some? :: VerdictFor(releases, rows, id).value
  }

  function Currency(c: Content, rows: seq<Evidence>): map<string, Verdict> {
    CurrencyOf(c.requirements, c.releases, rows)
  }

  lemma CurrencyStep(requirements: seq<Requirement>, n: nat, releases: seq<Release>, rows: seq<Evidence>)
    requires n < |requirements|
    ensures var before, id := CurrencyOf(requirements[..n], releases, rows), requirements[n].id;
            CurrencyOf(requirements[..n + 1], releases, rows)
            == match VerdictFor(releases, rows, id) case None => before case Some(v) => before[id := v]
  {
    assert requirements[..n + 1] == requirements[..n] + [requirements[n]];
    assert Ids(requirements[..n + 1]) == Ids(requirements[..n]) + {requirements[n].id};
  }

  lemma VerdictByIndex(releases: seq<Release>, rows: seq<Evidence>, bySubject: map<Subject, seq<int>>, id: string)
    requires Indexes(bySubject, rows) && LatestRelease(releases).Some?
    ensures var ids := if RequirementOf(id) in bySubject then bySubject[RequirementOf(id)] else [];
            && (VerdictFor(releases, rows, id).Some? <==> ids != [])
            && VerdictFor(releases, rows, id) == VerdictOn(rows, ids, LatestRelease(releases).value.version)
  {
  }

  method EvidenceCurrency(c: Content, rows: seq<Evidence>, bySubject: map<Subject, seq<int>>)
    returns (out: map<string, Verdict>)
    requires Indexes(bySubject, rows)
    ensures out == Currency(c, rows)
  {
    out := map[];
    var release := LatestRelease(c.releases);
    if release == None {
      return;
    }
    for n := 0 to |c.requirements|
      invariant out == CurrencyOf(c.requirements[..n], c.releases, rows)
    {
      var id := c.requirements[n].id;
      var ids := if RequirementOf(id) in bySubject then bySubject[RequirementOf(id)] else [];
      VerdictByIndex(c.releases, rows, bySubject, id);
      CurrencyStep(c.requirements, n, c.releases, rows);
      if ids != [] {
        out := out[id := VerdictOn(rows, ids, release.value.version).value];
      }
    }
    assert c.requirements[..|c.requirements|] == c.requirements;
  }

  predicate Done(r: Requirement) { r.status == Implemented || r.status == Verified }

  function At(currency: map<string, Verdict>, id: string): Option<Verdict> {
    if id in currency then Some(currency[id]) else None
  }

  predicate IsGap(r: Requirement, currency: Option<Verdict>) {
    if r.applicability == NotApplicable then Blank(r.justification)
    else if r.applicability == Undetermined then true
    else if Done(r) && r.evidenceIds != [] && currency == Some(StaleEvidence) then true
    else !Done(r) || r.evidenceIds == []
  }

  // ---- one section ----

  const PART_I: set<string> := {
    "annex_i.i.1", "annex_i.i.2.a", "annex_i.i.2.b", "annex_i.i.2.c", "annex_i.i.2.d", "annex_i.i.2.e", "annex_i.i.2.f",
    "annex_i.i.2.g", "annex_i.i.2.h", "annex_i.i.2.i", "annex_i.i.2.j", "annex_i.i.2.k", "annex_i.i.2.l",
      "annex_i.i.2.m"
  }

  function AutoFrom(slot: Slot): seq<string> {
    match slot
    case Processes => ["annex_i.ii.1", "annex_i.ii.5", "annex_i.ii.6", "annex_i.ii.7"]
    case TestReports => ["annex_i.ii.3"]
    case SbomOnRequest => ["annex_i.ii.1"]
    case _ => []
  }

  // `base` followed by the rows of each requirement in turn.
  function Sourced(base: seq<int>, rows: seq<Evidence>, from: seq<string>): seq<int> {
    if from == [] then base
    else var n := |from| - 1; Sourced(base, rows, from[..n]) + RowsOf(rows, RequirementOf(from[n]))
  }

  function SlotEvidence(rows: seq<Evidence>, slot: Slot): seq<int> {
    Sourced(RowsOf(rows, SlotOf(slot)), rows, AutoFrom(slot))
  }

  // The requirements among `from` that contributed a row.
  function Sources(rows: seq<Evidence>, from: seq<string>): set<string> {
    if from == [] then {}
    else
      var n := |from| - 1;
      Sources(rows, from[..n]) + if RowsOf(rows, RequirementOf(from[n])) == [] then {} else {from[n]}
  }

  // Some sections are fed by requirement work rather than by direct attachment.
  method GatherEvidence(direct: Subject, from: seq<string>, rows: seq<Evidence>, bySubject: map<Subject, seq<int>>)
    returns (evidence: seq<int>, sourcedFrom: set<string>)
    requires Indexes(bySubject, rows)
    ensures evidence == Sourced(RowsOf(rows, direct), rows, from)
    ensures sourcedFrom == Sources(rows, from)
  {
    evidence := if direct in bySubject then bySubject[direct] else [];
    sourcedFrom := {};
    for n := 0 to |from|
      invariant evidence == Sourced(RowsOf(rows, direct), rows, from[..n])
      invariant sourcedFrom == Sources(rows, from[..n])
    {
      var found := if RequirementOf(from[n]) in bySubject then bySubject[RequirementOf(from[n])] else [];
      assert found == RowsOf(rows, RequirementOf(from[n]));
      assert from[..n + 1][..n] == from[..n];
      evidence, sourcedFrom := AppendRows(evidence, sourcedFrom, from[n], found);
    }
    assert from[..|from|] == from;
  }

  method AppendRows(evidence: seq<int>, sourcedFrom: set<string>, id: string, found: seq<int>)
    returns (more: seq<int>, named: set<string>)
    ensures more == evidence + found
    ensures named == if found == [] then sourcedFrom else sourcedFrom + {id}
  {
    more, named := evidence, sourcedFrom;
    for k := 0 to |found|
      invariant more == evidence + found[..k]
      invariant named == if k == 0 then sourcedFrom else sourcedFrom + {id}
    {
      more := more + [found[k]];
      named := named + {id};
    }
  }

  datatype StaleReason =
    | ClassChanged(assessed: ProductClass, recorded: ProductClass)
    | LifecycleChanged(before: Lifecycle, after: Lifecycle)
    | RevisionInProgress(version: int, undecided: int)

  predicate Confirmed(a: Option<Assessment>) { a.Some? && a.value.contentHash != "" }

  // Being placed on the market does not age the assessment that led there.
  predicate ExpectedStep(before: Lifecycle, after: Lifecycle) { before == InDevelopment && after == PlacedOnMarket }

  function StaleReasons(c: Content): seq<StaleReason> {
    if !Confirmed(c.assessment) then []
    else
      var a := c.assessment.value;
      (if a.basisClass.Some? && a.basisClass.value != c.productClass
       then [ClassChanged(a.basisClass.value, c.productClass)] else [])
      + (if a.basisLifecycle.Some? && a.basisLifecycle.value != c.lifecycle
            && !ExpectedStep(a.basisLifecycle.value, c.lifecycle)
         then [LifecycleChanged(a.basisLifecycle.value, c.lifecycle)] else [])
      + (if a.draft then [RevisionInProgress(a.version, a.undecided)] else [])
  }

  predicate Settled(i: UserItem) { if i.notApplicable then !Blank(i.justification) else i.provided }

  datatype AssessmentView = AssessmentView(version: int, contentHash: string, evidenceId: Option<int>)

  function ShowAssessment(a: Option<Assessment>): Option<AssessmentView> {
    if a == None then None
    else Some(AssessmentView(a.value.version, a.value.contentHash, a.value.evidenceId))
  }

  datatype Detail =
    | Coverage(assessment: Option<AssessmentView>, staleReasons: seq<StaleReason>, total: int, gaps: seq<string>,
               earlierRelease: seq<string>, unversioned: seq<string>, unbased: seq<string>)
    | Information(items: int, unsettled: seq<string>, notApplicable: seq<string>)
    | Period(dates: Dates)
    | Copy
    | Artefact(otherKinds: set<Kind>)

  datatype SlotView = SlotView(slot: Slot, evidenceIds: seq<int>, sourcedFrom: set<string>, detail: Detail,
      complete: bool)

  predicate InPartI(r: Requirement) { r.id in PART_I }

  function RequirementIds(s: seq<Requirement>): seq<string> { Map(s, RequirementId) }

  function Gaps(items: seq<Requirement>, currency: map<string, Verdict>): seq<Requirement> {
    Filter(items, (r: Requirement) => IsGap(r, At(currency, r.id)))
  }

  function WithVerdict(items: seq<Requirement>, currency: map<string, Verdict>, v: Verdict): seq<Requirement> {
    Filter(items, (r: Requirement) => At(currency, r.id) == Some(v))
  }

  function Unbased(items: seq<Requirement>): seq<Requirement> {
    Filter(items, (r: Requirement) => r.applicability == Applicable && r.riskBasis == [] && !("annex_i.ii." <= r.id))
  }

  function CoverageView(c: Content, currency: map<string, Verdict>): (Detail, bool) {
    var items := Filter(c.requirements, InPartI);
    var gaps := Gaps(items, currency);
    (Coverage(ShowAssessment(c.assessment), StaleReasons(c), |items|, RequirementIds(gaps),
              RequirementIds(WithVerdict(items, currency, StaleEvidence)),
              RequirementIds(WithVerdict(items, currency, UnversionedEvidence)), RequirementIds(Unbased(items))),
     items != [] && gaps == [] && Confirmed(c.assessment) && StaleReasons(c) == [])
  }

  function InformationView(c: Content, evidence: seq<int>): (Detail, bool) {
    var items := c.userInformation;
    var unsettled := Filter(items, (i: UserItem) => !Settled(i));
    (Information(|items|, Map(unsettled, ItemId), Map(Filter(items, (i: UserItem) => i.notApplicable), ItemId)),
     evidence != [] && items != [] && unsettled == [])
  }

  function PeriodView(c: Content): (Detail, bool) {
    (Period(c.support.dates),
     c.support.dates.start.Some? && c.support.dates.end.Some? && !Blank(c.support.rationale))
  }

  function Kinds(rows: seq<Evidence>, ids: seq<int>): set<Kind> {
    set i | i in ids && 0 <= i < |rows| :: rows[i].kind
  }

  // A section that names an artefact is filled by that artefact alone.
  function ArtefactView(slot: Slot, rows: seq<Evidence>, evidence: seq<int>): (Detail, bool) {
    var complete := if slot == SbomOnRequest then Sbom in Kinds(rows, evidence) else evidence != [];
    (Artefact(if complete then {} else Kinds(rows, evidence)), complete)
  }

  function SectionView(slot: Slot, c: Content, declared: bool, rows: seq<Evidence>, currency: map<string, Verdict>,
                       evidence: seq<int>, sourcedFrom: set<string>): SlotView
  {
    var (detail, complete) :=
      match slot
      case RiskAssessment => CoverageView(c, currency)
      case GeneralDescription => InformationView(c, evidence)
      case SupportDetermination => PeriodView(c)
      case DeclarationCopy => (Copy, declared)
      case _ => ArtefactView(slot, rows, evidence);
    SlotView(slot, evidence, sourcedFrom, detail, complete)
  }

  function ViewOf(slot: Slot, c: Content, declared: bool, rows: seq<Evidence>,
      currency: map<string, Verdict>): SlotView {
    SectionView(slot, c, declared, rows, currency, SlotEvidence(rows, slot), Sources(rows, AutoFrom(slot)))
  }

  const SLOTS: seq<Slot> := [
    GeneralDescription, Processes, RiskAssessment, SupportDetermination,
    Standards, TestReports, DeclarationCopy, SbomOnRequest
  ]

  function Viewer(c: Content, declared: bool, rows: seq<Evidence>, currency: map<string, Verdict>): Slot -> SlotView {
    (slot: Slot) => ViewOf(slot, c, declared, rows, currency)
  }

  function Views(c: Content, declared: bool, rows: seq<Evidence>): seq<SlotView> {
    Map(SLOTS, Viewer(c, declared, rows, Currency(c, rows)))
  }

  method AssembleViews(slots: seq<Slot>, c: Content, declared: bool, rows: seq<Evidence>) returns (views: seq<SlotView>)
    ensures views == Map(slots, Viewer(c, declared, rows, Currency(c, rows)))
  {
    var bySubject := EvidenceBySubject(rows);
    var currency := EvidenceCurrency(c, rows, bySubject);
    ghost var view := Viewer(c, declared, rows, currency);
    views := [];
    for n := 0 to |slots|
      invariant views == Map(slots[..n], view)
    {
      var section := AssembleSection(slots[n], c, declared, rows, bySubject, currency);
      assert section == view(slots[n]);
      MapStep(slots, n, view);
      views := views + [section];
    }
    assert slots[..|slots|] == slots;
  }

  method AssembleSection(slot: Slot, c: Content, declared: bool, rows: seq<Evidence>,
                         bySubject: map<Subject, seq<int>>, currency: map<string, Verdict>) returns (view: SlotView)
    requires Indexes(bySubject, rows)
    ensures view == ViewOf(slot, c, declared, rows, currency)
  {
    var evidence, sourcedFrom := GatherEvidence(SlotOf(slot), AutoFrom(slot), rows, bySubject);
    view := SectionView(slot, c, declared, rows, currency, evidence, sourcedFrom);
  }

  // The declaration's own section is deferred: it is drawn up against the
  // frozen file, so counting it as missing would block both.
  predicate Deferred(v: SlotView) { v.slot == DeclarationCopy && !v.complete }

  predicate Missing(v: SlotView) { !v.complete && v.slot != SbomOnRequest && !Deferred(v) }

  function MissingSections(views: seq<SlotView>): seq<SlotView> { Filter(views, Missing) }

  // ---- the hashed payload ----

  const PAYLOAD_VERSION := 3

  datatype Payload = Payload(
    version: int, role: OperatorRole, name: string, productClass: ProductClass, permittedRoute: string, claim: Claim,
    release: Option<Release>, slots: seq<SlotView>, narrative: Statements)

  function Assemble(c: Content, claim: Claim, declared: bool, rows: seq<Evidence>): Payload {
    Payload(PAYLOAD_VERSION, c.role, c.name, c.productClass, c.permittedRoute, claim, LatestRelease(c.releases),
            Views(c, declared, rows), Narrate(c.requirements, c.userInformation))
  }

  // ---- what "complete" comes to ----

  // A live row filed under the subject.
  predicate Filed(rows: seq<Evidence>, subject: Subject) {
    exists i :: 0 <= i < |rows| && !rows[i].deleted && rows[i].subject == subject
  }

  // Live evidence on record, every row of it naming some other release.
  predicate OnlyEarlierReleases(c: Content, rows: seq<Evidence>, id: string) {
    && LatestRelease(c.releases).Some?
    && Filed(rows, RequirementOf(id))
    && forall i :: 0 <= i < |rows| && !rows[i].deleted && rows[i].subject == RequirementOf(id) ==>
         rows[i].version.Some? && rows[i].version.value != LatestRelease(c.releases).value.version
  }

  // Live evidence on record, none of it naming the latest release and some no release.
  predicate OnlyUnversioned(c: Content, rows: seq<Evidence>, id: string) {
    && LatestRelease(c.releases).Some?
    && (exists i :: 0 <= i < |rows| && !rows[i].deleted && rows[i].subject == RequirementOf(id)
                    && rows[i].version.None?)
    && forall i :: 0 <= i < |rows| && !rows[i].deleted && rows[i].subject == RequirementOf(id) ==>
         rows[i].version != Some(LatestRelease(c.releases).value.version)
  }

  ghost predicate Answered(c: Content, rows: seq<Evidence>, r: Requirement) {
    match r.applicability
    case NotApplicable => Says(r.justification)
    case Undetermined => false
    case Applicable =>
      && (r.status == Implemented || r.status == Verified) && r.evidenceIds != []
      && !OnlyEarlierReleases(c, rows, r.id)
  }

  // Annex I Part I: point (1), and points (2)(a) to (2)(m).
  ghost predicate PartIPoint(id: string) {
    id == "annex_i.i.1" || (|id| == 13 && id[..12] == "annex_i.i.2." && 'a' <= id[12] <= 'm')
  }

  // Confirmed, for the class and the lifecycle the product still has, being
  // placed on the market aside, and not under revision.
  predicate AssessmentHolds(c: Content) {
    && c.assessment.Some?
    && var a := c.assessment.value;
    && a.contentHash != "" && !a.draft
    && (a.basisClass.None? || a.basisClass.value == c.productClass)
    && (a.basisLifecycle.None? || a.basisLifecycle.value == c.lifecycle
        || (a.basisLifecycle.value == InDevelopment && c.lifecycle == PlacedOnMarket))
  }

  ghost predicate ItemSettled(i: UserItem) { if i.notApplicable then Says(i.justification) else i.provided }

  // The requirements whose evidence a section takes over.
  predicate FedBy(slot: Slot, id: string) {
    match slot
    case Processes => id in {"annex_i.ii.1", "annex_i.ii.5", "annex_i.ii.6", "annex_i.ii.7"}
    case TestReports => id == "annex_i.ii.3"
    case SbomOnRequest => id == "annex_i.ii.1"
    case _ => false
  }

  ghost predicate FiledFor(rows: seq<Evidence>, slot: Slot) {
    Filed(rows, SlotOf(slot)) || exists id :: FedBy(slot, id) && Filed(rows, RequirementOf(id))
  }

  // What each mandatory section takes, read off the record itself.
  ghost predicate Filled(slot: Slot, c: Content, rows: seq<Evidence>) {
    match slot
    case GeneralDescription =>
      Filed(rows, SlotOf(slot)) && c.userInformation != [] && forall i :: i in c.userInformation ==> ItemSettled(i)
    case RiskAssessment =>
      && AssessmentHolds(c)
      && (exists r :: r in c.requirements && PartIPoint(r.id))
      && (forall r :: r in c.requirements && PartIPoint(r.id) ==> Answered(c, rows, r))
    case SupportDetermination =>
      c.support.dates.start.Some? && c.support.dates.end.Some? && Says(c.support.rationale)
    case DeclarationCopy => true
    case SbomOnRequest => true
    case _ => FiledFor(rows, slot)
  }

  ghost predicate NoHoles(c: Content, rows: seq<Evidence>) { forall slot :: Filled(slot, c, rows) }

  lemma PartIPoints(id: string)
    ensures id in PART_I <==> PartIPoint(id)
  {
    if PartIPoint(id) && id != "annex_i.i.1" {
      assert id == "annex_i.i.2." + [id[12]];
      LetteredPoint(id[12]);
    }
  }

  lemma LetteredPoint(c: char)
    requires 'a' <= c <= 'm'
    ensures "annex_i.i.2." + [c] in PART_I
  {
    match c {
      case 'a' => assert "annex_i.i.2." + [c] == "annex_i.i.2.a";
      case 'b' => assert "annex_i.i.2." + [c] == "annex_i.i.2.b";
      case 'c' => assert "annex_i.i.2." + [c] == "annex_i.i.2.c";
      case 'd' => assert "annex_i.i.2." + [c] == "annex_i.i.2.d";
      case 'e' => assert "annex_i.i.2." + [c] == "annex_i.i.2.e";
      case 'f' => assert "annex_i.i.2." + [c] == "annex_i.i.2.f";
      case 'g' => assert "annex_i.i.2." + [c] == "annex_i.i.2.g";
      case 'h' => assert "annex_i.i.2." + [c] == "annex_i.i.2.h";
      case 'i' => assert "annex_i.i.2." + [c] == "annex_i.i.2.i";
      case 'j' => assert "annex_i.i.2." + [c] == "annex_i.i.2.j";
      case 'k' => assert "annex_i.i.2." + [c] == "annex_i.i.2.k";
      case 'l' => assert "annex_i.i.2." + [c] == "annex_i.i.2.l";
      case 'm' => assert "annex_i.i.2." + [c] == "annex_i.i.2.m";
    }
  }

  lemma FeedsExactly(slot: Slot, id: string)
    ensures id in AutoFrom(slot) <==> FedBy(slot, id)
  {
  }

  lemma FiledRows(rows: seq<Evidence>, subject: Subject)
    ensures Filed(rows, subject) <==> RowsOf(rows, subject) != []
  {
    RowsOfMembers(rows, subject);
    if RowsOf(rows, subject) != [] {
      assert RowsOf(rows, subject)[0] in RowsOf(rows, subject);
    }
  }

  lemma {:induction false} SourcedRows(base: seq<int>, rows: seq<Evidence>, from: seq<string>)
    ensures Sourced(base, rows, from) != [] <==> base != [] || exists id :: id in from && Filed(rows, RequirementOf(id))
  {
    if from != [] {
      var n := |from| - 1;
      SourcedRows(base, rows, from[..n]);
      FiledRows(rows, RequirementOf(from[n]));
      assert from == from[..n] + [from[n]];
    }
  }

  lemma SlotFilled(rows: seq<Evidence>, slot: Slot)
    ensures SlotEvidence(rows, slot) != [] <==> FiledFor(rows, slot)
  {
    forall id ensures id in AutoFrom(slot) <==> FedBy(slot, id) {
      FeedsExactly(slot, id);
    }
    FiledRows(rows, SlotOf(slot));
    SourcedRows(RowsOf(rows, SlotOf(slot)), rows, AutoFrom(slot));
  }

  // Only evidence that names some other release, and all of it, reads as stale.
  lemma StaleMeansOnlyEarlier(c: Content, rows: seq<Evidence>, id: string)
    ensures VerdictFor(c.releases, rows, id) == Some(StaleEvidence) <==> OnlyEarlierReleases(c, rows, id)
  {
    FiledRows(rows, RequirementOf(id));
    RowsOfMembers(rows, RequirementOf(id));
    if LatestRelease(c.releases).Some? {
      var version := LatestRelease(c.releases).value.version;
      var ids := RowsOf(rows, RequirementOf(id));
      if !AnyVersion(rows, ids, Some(version)) && !AnyVersion(rows, ids, None) {
        forall i | 0 <= i < |rows| && !rows[i].deleted && rows[i].subject == RequirementOf(id)
          ensures rows[i].version.Some? && rows[i].version.value != version
        {
          assert i in ids;
        }
      }
    }
  }

  lemma GapsAreUnanswered(c: Content, rows: seq<Evidence>, r: Requirement)
    requires r in c.requirements
    ensures IsGap(r, At(Currency(c, rows), r.id)) <==> !Answered(c, rows, r)
  {
    StaleMeansOnlyEarlier(c, rows, r.id);
    BlankExactly(r.justification);
    assert r.id in Ids(c.requirements);
    assert At(Currency(c, rows), r.id) == VerdictFor(c.releases, rows, r.id);
  }

  lemma AssessmentExactly(c: Content)
    ensures Confirmed(c.assessment) && StaleReasons(c) == [] <==> AssessmentHolds(c)
  {
  }

  lemma CoverageMeans(c: Content, rows: seq<Evidence>)
    ensures CoverageView(c, Currency(c, rows)).1 <==> Filled(RiskAssessment, c, rows)
  {
    var currency := Currency(c, rows);
    var items := Filter(c.requirements, InPartI);
    NothingKept(c.requirements, InPartI);
    FilterMembers(c.requirements, InPartI);
    NothingKept(items, (r: Requirement) => IsGap(r, At(currency, r.id)));
    AssessmentExactly(c);
    forall r | r in c.requirements
      ensures InPartI(r) <==> PartIPoint(r.id)
      ensures IsGap(r, At(currency, r.id)) <==> !Answered(c, rows, r)
    {
      PartIPoints(r.id);
      GapsAreUnanswered(c, rows, r);
    }
  }

  lemma SettledExactly(i: UserItem)
    ensures Settled(i) <==> ItemSettled(i)
  {
    BlankExactly(i.justification);
  }

  lemma DescriptionFilled(c: Content, rows: seq<Evidence>)
    ensures InformationView(c, SlotEvidence(rows, GeneralDescription)).1 <==> Filled(GeneralDescription, c, rows)
  {
    SlotFilled(rows, GeneralDescription);
    NothingKept(c.userInformation, (i: UserItem) => !Settled(i));
    forall i ensures Settled(i) <==> ItemSettled(i) {
      SettledExactly(i);
    }
  }

  lemma ArtefactFilled(slot: Slot, c: Content, rows: seq<Evidence>)
    requires slot == Processes || slot == Standards || slot == TestReports
    ensures ArtefactView(slot, rows, SlotEvidence(rows, slot)).1 <==> Filled(slot, c, rows)
  {
    SlotFilled(rows, slot);
  }

  lemma FilledViews(slot: Slot, c: Content, declared: bool, rows: seq<Evidence>)
    ensures Missing(ViewOf(slot, c, declared, rows, Currency(c, rows))) <==> !Filled(slot, c, rows)
  {
    match slot
    case RiskAssessment => CoverageMeans(c, rows);
    case GeneralDescription => DescriptionFilled(c, rows);
    case SupportDetermination => BlankExactly(c.support.rationale);
    case DeclarationCopy =>
    case SbomOnRequest =>
    case _ => ArtefactFilled(slot, c, rows);
  }

  // A file with no section missing is exactly a record with no hole in it.
  lemma CompleteMeansNoHoles(c: Content, declared: bool, rows: seq<Evidence>)
    ensures MissingSections(Views(c, declared, rows)) == [] <==> NoHoles(c, rows)
  {
    var view := Viewer(c, declared, rows, Currency(c, rows));
    NothingKeptOfMap(SLOTS, view, Missing);
    EverySlotListed();
    forall slot ensures Missing(view(slot)) <==> !Filled(slot, c, rows) {
      FilledViews(slot, c, declared, rows);
    }
  }

  lemma EverySlotListed()
    ensures forall slot: Slot :: slot in SLOTS
  {
    forall slot: Slot ensures slot in SLOTS {
      var i := match slot
        case GeneralDescription => 0 case Processes => 1 case RiskAssessment => 2 case SupportDetermination => 3
        case Standards => 4 case TestReports => 5 case DeclarationCopy => 6 case SbomOnRequest => 7;
      assert SLOTS[i] == slot;
    }
  }

  // ---- what a section says ----

  lemma {:induction false} SourcedMembers(base: seq<int>, rows: seq<Evidence>, from: seq<string>, i: int)
    ensures i in Sourced(base, rows, from) <==>
            i in base || (0 <= i < |rows| && !rows[i].deleted && rows[i].subject.RequirementOf?
                          && rows[i].subject.id in from)
  {
    if from != [] {
      var n := |from| - 1;
      SourcedMembers(base, rows, from[..n], i);
      RowsOfMembers(rows, RequirementOf(from[n]));
      assert from == from[..n] + [from[n]];
    }
  }

  lemma {:induction false} SourcedInRange(base: seq<int>, rows: seq<Evidence>, from: seq<string>)
    requires forall i :: i in base ==> 0 <= i < |rows|
    ensures forall i :: i in Sourced(base, rows, from) ==> 0 <= i < |rows|
  {
    if from != [] {
      var n := |from| - 1;
      SourcedInRange(base, rows, from[..n]);
      RowsOfMembers(rows, RequirementOf(from[n]));
    }
  }

  lemma SlotEvidenceInRange(rows: seq<Evidence>, slot: Slot)
    ensures forall i :: i in SlotEvidence(rows, slot) ==> 0 <= i < |rows|
  {
    RowsOfMembers(rows, SlotOf(slot));
    SourcedInRange(RowsOf(rows, SlotOf(slot)), rows, AutoFrom(slot));
  }

  // A section shows the live rows filed under it and under the requirements that feed it.
  lemma SlotEvidenceExactly(rows: seq<Evidence>, slot: Slot, i: int)
    ensures i in SlotEvidence(rows, slot) <==>
            && 0 <= i < |rows| && !rows[i].deleted
            && (rows[i].subject == SlotOf(slot)
                || (rows[i].subject.RequirementOf? && FedBy(slot, rows[i].subject.id)))
  {
    RowsOfMembers(rows, SlotOf(slot));
    SourcedMembers(RowsOf(rows, SlotOf(slot)), rows, AutoFrom(slot), i);
    if 0 <= i < |rows| && rows[i].subject.RequirementOf? {
      FeedsExactly(slot, rows[i].subject.id);
    }
  }

  lemma {:induction false} SourcesMembers(rows: seq<Evidence>, from: seq<string>, id: string)
    ensures id in Sources(rows, from) <==> id in from && Filed(rows, RequirementOf(id))
  {
    if from != [] {
      var n := |from| - 1;
      SourcesMembers(rows, from[..n], id);
      FiledRows(rows, RequirementOf(from[n]));
      assert from == from[..n] + [from[n]];
    }
  }

  // It names the requirements that did feed it, and the bill of materials is
  // complete exactly when a live row it shows is one; a section without its
  // artefact lists what was filed instead.
  lemma SectionSays(c: Content, declared: bool, rows: seq<Evidence>, slot: Slot, id: string)
    ensures var view := ViewOf(slot, c, declared, rows, Currency(c, rows));
            && (id in view.sourcedFrom <==> FedBy(slot, id) && Filed(rows, RequirementOf(id)))
            && (slot == SbomOnRequest ==>
                  (view.complete <==>
                   exists i :: 0 <= i < |rows| && !rows[i].deleted && rows[i].kind == Sbom
                               && (rows[i].subject == SlotOf(slot)
                                   || rows[i].subject == RequirementOf("annex_i.ii.1"))))
            && (slot == DeclarationCopy ==> view.complete == declared)
            && (view.detail.Artefact? && view.complete ==> view.detail.otherKinds == {})
            && (view.detail.Artefact? && !view.complete ==>
                  forall kind :: kind in view.detail.otherKinds <==>
                    exists i :: i in SlotEvidence(rows, slot) && 0 <= i < |rows| && rows[i].kind == kind)
  {
    SlotEvidenceInRange(rows, slot);
    SourcesMembers(rows, AutoFrom(slot), id);
    FeedsExactly(slot, id);
    if slot == SbomOnRequest {
      forall i ensures i in SlotEvidence(rows, slot) <==>
                       && 0 <= i < |rows| && !rows[i].deleted
                       && (rows[i].subject == SlotOf(slot) || rows[i].subject == RequirementOf("annex_i.ii.1"))
      {
        SlotEvidenceExactly(rows, slot, i);
      }
    }
  }

  lemma ListedIds(items: seq<Requirement>, p: Requirement -> bool, id: string)
    ensures id in RequirementIds(Filter(items, p)) <==> exists r :: r in items && p(r) && r.id == id
  {
    FilterMembers(items, p);
    MapMembers(Filter(items, p), RequirementId);
    if r :| r in items && p(r) && r.id == id {
      assert r in Filter(items, p) && RequirementId(r) == id;
    }
  }

  // Each verdict on a requirement, read off the record.
  ghost predicate PointSays(c: Content, rows: seq<Evidence>, currency: map<string, Verdict>, r: Requirement) {
    && (InPartI(r) <==> PartIPoint(r.id))
    && (IsGap(r, At(currency, r.id)) <==> !Answered(c, rows, r))
    && (At(currency, r.id) == Some(StaleEvidence) <==> OnlyEarlierReleases(c, rows, r.id))
    && (At(currency, r.id) == Some(UnversionedEvidence) <==> OnlyUnversioned(c, rows, r.id))
    && (PartIPoint(r.id) ==> !("annex_i.ii." <= r.id))
  }

  lemma UnversionedMeans(c: Content, rows: seq<Evidence>, id: string)
    ensures VerdictFor(c.releases, rows, id) == Some(UnversionedEvidence) <==> OnlyUnversioned(c, rows, id)
  {
    RowsOfMembers(rows, RequirementOf(id));
    if LatestRelease(c.releases).Some? {
      var version := LatestRelease(c.releases).value.version;
      var ids := RowsOf(rows, RequirementOf(id));
      if OnlyUnversioned(c, rows, id) {
        var i :| 0 <= i < |rows| && !rows[i].deleted && rows[i].subject == RequirementOf(id) && rows[i].version.None?;
        assert i in ids;
      }
      if !AnyVersion(rows, ids, Some(version)) {
        forall i | 0 <= i < |rows| && !rows[i].deleted && rows[i].subject == RequirementOf(id)
          ensures rows[i].version != Some(version)
        {
          assert i in ids;
        }
      }
    }
  }

  lemma VerdictMeans(c: Content, rows: seq<Evidence>, r: Requirement)
    requires r in c.requirements
    ensures At(Currency(c, rows), r.id) == Some(StaleEvidence) <==> OnlyEarlierReleases(c, rows, r.id)
    ensures At(Currency(c, rows), r.id) == Some(UnversionedEvidence) <==> OnlyUnversioned(c, rows, r.id)
  {
    StaleMeansOnlyEarlier(c, rows, r.id);
    UnversionedMeans(c, rows, r.id);
    assert r.id in Ids(c.requirements);
    assert At(Currency(c, rows), r.id) == VerdictFor(c.releases, rows, r.id);
  }

  lemma PointsSay(c: Content, rows: seq<Evidence>, r: Requirement)
    requires r in c.requirements
    ensures PointSays(c, rows, Currency(c, rows), r)
  {
    PartIPoints(r.id);
    GapsAreUnanswered(c, rows, r);
    VerdictMeans(c, rows, r);
    if PartIPoint(r.id) {
      assert r.id[9] == '.';
    }
  }

  lemma CoverageTotal(c: Content)
    ensures |Filter(c.requirements, InPartI)|
            == |set i | 0 <= i < |c.requirements| && PartIPoint(c.requirements[i].id)|
  {
    FilterCounts(c.requirements, InPartI);
    forall i | 0 <= i < |c.requirements| ensures InPartI(c.requirements[i]) <==> PartIPoint(c.requirements[i].id) {
      PartIPoints(c.requirements[i].id);
    }
    assert Places(c.requirements, InPartI)
           == set i | 0 <= i < |c.requirements| && PartIPoint(c.requirements[i].id);
  }

  // Why a confirmed assessment no longer holds: the class or lifecycle it was made
  // for, against the one on record, or the revision under way.
  lemma StaleReasonsSay(c: Content, reason: StaleReason)
    requires c.assessment.Some? && c.assessment.value.contentHash != ""
    ensures var a := c.assessment.value;
            reason in StaleReasons(c) <==>
            || (a.basisClass.Some? && a.basisClass.value != c.productClass
                && reason == ClassChanged(a.basisClass.value, c.productClass))
            || (a.basisLifecycle.Some? && a.basisLifecycle.value != c.lifecycle
                && !(a.basisLifecycle.value == InDevelopment && c.lifecycle == PlacedOnMarket)
                && reason == LifecycleChanged(a.basisLifecycle.value, c.lifecycle))
            || (a.draft && reason == RevisionInProgress(a.version, a.undecided))
    ensures forall rows :: CoverageView(c, Currency(c, rows)).0.staleReasons == StaleReasons(c)
    ensures forall rows ::
              CoverageView(c, Currency(c, rows)).0.assessment
              == Some(AssessmentView(c.assessment.value.version, c.assessment.value.contentHash,
                                     c.assessment.value.evidenceId))
  {
  }

  // The risk section lists, of the Part I points, those not answered, those
  // evidenced on earlier releases alone, those evidenced on no named release, and
  // those applied without a risk behind them.
  lemma CoverageSays(c: Content, rows: seq<Evidence>, id: string)
    ensures var d := CoverageView(c, Currency(c, rows)).0;
            && (id in d.gaps <==>
                exists r :: r in c.requirements && PartIPoint(r.id) && r.id == id && !Answered(c, rows, r))
            && (id in d.earlierRelease <==>
                exists r :: r in c.requirements && PartIPoint(r.id) && r.id == id && OnlyEarlierReleases(c, rows, id))
            && (id in d.unversioned <==>
                exists r :: r in c.requirements && PartIPoint(r.id) && r.id == id && OnlyUnversioned(c, rows, id))
            && (id in d.unbased <==>
                exists r :: r in c.requirements && PartIPoint(r.id) && r.id == id && r.applicability == Applicable
                            && r.riskBasis == [])
            && d.total == |set i | 0 <= i < |c.requirements| && PartIPoint(c.requirements[i].id)|
  {
    CoverageTotal(c);
    var currency := Currency(c, rows);
    var items := Filter(c.requirements, InPartI);
    FilterMembers(c.requirements, InPartI);
    ListedIds(items, (r: Requirement) => IsGap(r, At(currency, r.id)), id);
    ListedIds(items, (r: Requirement) => At(currency, r.id) == Some(StaleEvidence), id);
    ListedIds(items, (r: Requirement) => At(currency, r.id) == Some(UnversionedEvidence), id);
    ListedIds(items,
      (r: Requirement) => r.applicability == Applicable && r.riskBasis == [] && !("annex_i.ii." <= r.id), id);
    forall r | r in c.requirements ensures PointSays(c, rows, currency, r) {
      PointsSay(c, rows, r);
    }
  }

  // The description section lists the Annex II items neither provided nor ruled
  // out with a reason, and those ruled out.
  lemma InformationSays(c: Content, rows: seq<Evidence>, id: string)
    ensures var d := InformationView(c, SlotEvidence(rows, GeneralDescription)).0;
            && d.items == |c.userInformation|
            && (id in d.unsettled <==> exists i :: i in c.userInformation && !ItemSettled(i) && i.id == id)
            && (id in d.notApplicable <==> exists i :: i in c.userInformation && i.notApplicable && i.id == id)
  {
    var unsettled, ruledOut := (i: UserItem) => !Settled(i), (i: UserItem) => i.notApplicable;
    FilterMembers(c.userInformation, unsettled);
    FilterMembers(c.userInformation, ruledOut);
    MapMembers(Filter(c.userInformation, unsettled), ItemId);
    MapMembers(Filter(c.userInformation, ruledOut), ItemId);
    forall i ensures Settled(i) <==> ItemSettled(i) {
      SettledExactly(i);
    }
    if i :| i in c.userInformation && !ItemSettled(i) && i.id == id {
      assert i in Filter(c.userInformation, unsettled) && ItemId(i) == id;
    }
    if i :| i in c.userInformation && i.notApplicable && i.id == id {
      assert i in Filter(c.userInformation, ruledOut) && ItemId(i) == id;
    }
  }

  // ---- filing one more row ----

  lemma RowsOfAppend(rows: seq<Evidence>, e: Evidence, subject: Subject)
    ensures RowsOf(rows + [e], subject) == if Counts(e, subject) then RowsOf(rows, subject) + [|rows|]
            else RowsOf(rows, subject)
  {
    assert (rows + [e])[..|rows|] == rows;
  }

  lemma {:induction false} SourcedAppend(base: seq<int>, rows: seq<Evidence>, e: Evidence, from: seq<string>)
    requires !e.subject.RequirementOf?
    ensures Sourced(base, rows + [e], from) == Sourced(base, rows, from)
    ensures Sources(rows + [e], from) == Sources(rows, from)
  {
    if from != [] {
      var n := |from| - 1;
      SourcedAppend(base, rows, e, from[..n]);
      RowsOfAppend(rows, e, RequirementOf(from[n]));
    }
  }

  lemma VerdictUnmoved(releases: seq<Release>, rows: seq<Evidence>, e: Evidence, id: string)
    requires e.subject != RequirementOf(id)
    ensures VerdictFor(releases, rows + [e], id) == VerdictFor(releases, rows, id)
  {
    RowsOfAppend(rows, e, RequirementOf(id));
    RowsOfMembers(rows, RequirementOf(id));
    var ids := RowsOf(rows, RequirementOf(id));
    forall v ensures AnyVersion(rows + [e], ids, v) <==> AnyVersion(rows, ids, v) {
      assert forall i :: 0 <= i < |rows| ==> (rows + [e])[i] == rows[i];
    }
  }

  lemma CurrencyUnmoved(c: Content, rows: seq<Evidence>, e: Evidence)
    requires !e.subject.RequirementOf?
    ensures Currency(c, rows + [e]) == Currency(c, rows)
  {
    forall id ensures VerdictFor(c.releases, rows + [e], id) == VerdictFor(c.releases, rows, id) {
      VerdictUnmoved(c.releases, rows, e, id);
    }
  }

  // A row filed anywhere but a requirement or this section leaves the section as it was.
  lemma SectionUnmoved(slot: Slot, c: Content, declared: bool, rows: seq<Evidence>, e: Evidence)
    requires !e.subject.RequirementOf? && e.subject != SlotOf(slot)
    ensures ViewOf(slot, c, declared, rows + [e], Currency(c, rows + [e]))
            == ViewOf(slot, c, declared, rows, Currency(c, rows))
  {
    CurrencyUnmoved(c, rows, e);
    RowsOfAppend(rows, e, SlotOf(slot));
    SourcedAppend(RowsOf(rows, SlotOf(slot)), rows, e, AutoFrom(slot));
    assert SlotEvidence(rows + [e], slot) == SlotEvidence(rows, slot);
    SlotEvidenceInRange(rows, slot);
    assert forall i :: 0 <= i < |rows| ==> (rows + [e])[i] == rows[i];
    assert Kinds(rows + [e], SlotEvidence(rows, slot)) == Kinds(rows, SlotEvidence(rows, slot));
  }

  // The assembled snapshot is filed where no section looks.
  lemma SnapshotUnseen(c: Content, declared: bool, rows: seq<Evidence>, e: Evidence)
    requires e.subject == Assembled
    ensures Views(c, declared, rows + [e]) == Views(c, declared, rows)
  {
    forall k | 0 <= k < |SLOTS|
      ensures Views(c, declared, rows + [e])[k] == Views(c, declared, rows)[k]
    {
      SectionUnmoved(SLOTS[k], c, declared, rows, e);
    }
  }

  lemma CopySeen(rows: seq<Evidence>, e: Evidence)
    requires e.subject == SlotOf(DeclarationCopy) && !e.deleted
    ensures SlotEvidence(rows + [e], DeclarationCopy) == SlotEvidence(rows, DeclarationCopy) + [|rows|]
  {
    RowsOfAppend(rows, e, SlotOf(DeclarationCopy));
  }

  // A drafted declaration is seen by its own section alone, under a new id.
  lemma DraftSeen(c: Content, declared: bool, rows: seq<Evidence>, e: Evidence)
    requires e.subject == SlotOf(DeclarationCopy) && !e.deleted
    ensures var before, after := Views(c, declared, rows), Views(c, true, rows + [e]);
            && after[6].evidenceIds == before[6].evidenceIds + [|rows|] && after[6].complete
            && forall k :: 0 <= k < |SLOTS| && k != 6 ==> after[k] == before[k]
  {
    CopySeen(rows, e);
    forall k | 0 <= k < |SLOTS| && k != 6
      ensures Views(c, true, rows + [e])[k] == Views(c, declared, rows)[k]
    {
      OtherSectionUnmoved(SLOTS[k], c, declared, rows, e);
    }
  }

  lemma OtherSectionUnmoved(slot: Slot, c: Content, declared: bool, rows: seq<Evidence>, e: Evidence)
    requires e.subject == SlotOf(DeclarationCopy) && slot != DeclarationCopy
    ensures ViewOf(slot, c, true, rows + [e], Currency(c, rows + [e]))
            == ViewOf(slot, c, declared, rows, Currency(c, rows))
  {
    SectionUnmoved(slot, c, declared, rows, e);
  }
}
