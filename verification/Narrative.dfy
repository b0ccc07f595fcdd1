// What the technical file says about each requirement and each Annex II item,
// as it enters the content hash (src/cra/server/conformity.py, `_narrative`).
module Narrative {
  import opened Ordering

  datatype Applicability = Applicable | NotApplicable | Undetermined

  datatype Progress = NotStarted | InProgress | Implemented | Verified

  // Evidence ids are positions in the evidence table.
  datatype Requirement = Requirement(
    id: string, applicability: Applicability, status: Progress, justification: string, note: string,
    riskBasis: seq<string>, evidenceIds: seq<int>)

  datatype UserItem = UserItem(
    id: string, provided: bool, notApplicable: bool, justification: string, location: string, note: string)

  // A requirement line holds its two id lists sorted; a user item is its own line.
  datatype Statements = Statements(requirements: seq<Requirement>, userInformation: seq<UserItem>)

  function RequirementId(r: Requirement): string { r.id }

  function ItemId(i: UserItem): string { i.id }

  predicate IntLeq(a: int, b: int) { a <= b }

  function RequirementLine(r: Requirement): Requirement {
    r.(riskBasis := SortBy(r.riskBasis, LexLeq), evidenceIds := SortBy(r.evidenceIds, IntLeq))
  }

  function ItemLine(i: UserItem): UserItem { i }

  predicate ById<T>(uid: T -> string, a: T, b: T) { LexLeq(uid(a), uid(b)) }

  function SortById<T>(s: seq<T>, uid: T -> string): seq<T> { SortBy(s, (a: T, b: T) => ById(uid, a, b)) }

  function Narrate(requirements: seq<Requirement>, items: seq<UserItem>): Statements {
    Statements(Map(SortById(requirements, RequirementId), RequirementLine), Map(SortById(items, ItemId), ItemLine))
  }

  // ---- sorting by a distinct id is canonical ----

  lemma ByIdIsOrder<T(!new)>(uid: T -> string)
    ensures Total((a: T, b: T) => ById(uid, a, b)) && Transitive((a: T, b: T) => ById(uid, a, b))
  {
    LexIsOrder();
    forall a: T, b: T ensures ById(uid, a, b) || ById(uid, b, a) {
      LexTotal(uid(a), uid(b));
    }
    forall a: T, b: T, c: T | ById(uid, a, b) && ById(uid, b, c) ensures ById(uid, a, c) {
      LexTransitive(uid(a), uid(b), uid(c));
    }
  }

  // Each id no smaller than any before it, and never equal to one.
  ghost predicate Ascending<T>(s: seq<T>, uid: T -> string) {
    forall i, j :: 0 <= i < j < |s| ==> LexLeq(uid(s[i]), uid(s[j])) && uid(s[i]) != uid(s[j])
  }

  lemma SortByIdAscends<T(!new)>(s: seq<T>, uid: T -> string)
    requires DistinctBy(s, uid)
    ensures Ascending(SortById(s, uid), uid)
    ensures forall x :: x in SortById(s, uid) <==> x in s
  {
    var leq := (a: T, b: T) => ById(uid, a, b);
    ByIdIsOrder(uid);
    SortIsSorted(s, leq);
    SortKeepsItems(s, leq);
    SortKeepsDistinct(s, leq, uid);
    var t := SortBy(s, leq);
    forall i, j | 0 <= i < j < |t| ensures LexLeq(uid(t[i]), uid(t[j])) && uid(t[i]) != uid(t[j]) {
      assert leq(t[i], t[j]);
    }
  }

  ghost predicate SameMembers<T(!new)>(a: seq<T>, b: seq<T>) { forall x :: x in a <==> x in b }

  lemma {:induction false} AscendingUnique<T(!new)>(a: seq<T>, b: seq<T>, uid: T -> string)
    requires Ascending(a, uid) && Ascending(b, uid) && SameMembers(a, b)
    ensures a == b
  {
    if a == [] {
      assert forall i :: 0 <= i < |b| ==> b[i] in a;
    } else {
      assert a[0] in b;
      var i :| 0 <= i < |b| && b[i] == a[0];
      assert b[0] in a;
      var j :| 0 <= j < |a| && a[j] == b[0];
      if i != 0 {
        if j != 0 {
          LexAntisymmetric(uid(a[0]), uid(b[0]));
        }
        assert false;
      }
      forall x ensures x in a[1..] <==> x in b[1..] {
        TailMembers(a, x, uid);
        TailMembers(b, x, uid);
      }
      AscendingUnique(a[1..], b[1..], uid);
      assert a == [a[0]] + a[1..] && b == [b[0]] + b[1..];
    }
  }

  lemma TailMembers<T>(s: seq<T>, x: T, uid: T -> string)
    requires s != [] && Ascending(s, uid)
    ensures x in s[1..] <==> x in s && x != s[0]
  {
    assert s == [s[0]] + s[1..];
    if x in s[1..] {
      var k :| 0 <= k < |s[1..]| && s[1..][k] == x;
      assert s[k + 1] == x;
    }
  }

  ghost predicate KeepsId<T(!new)>(line: T -> T, uid: T -> string) { forall x :: uid(line(x)) == uid(x) }

  // Two lists with distinct ids render alike exactly when they hold the same lines.
  lemma RenderingIsCanonical<T(!new)>(a: seq<T>, b: seq<T>, uid: T -> string, line: T -> T)
    requires DistinctBy(a, uid) && DistinctBy(b, uid) && KeepsId(line, uid)
    ensures Map(SortById(a, uid), line) == Map(SortById(b, uid), line)
            <==> SameMembers(Map(a, line), Map(b, line))
  {
    RenderingAscends(a, uid, line);
    RenderingAscends(b, uid, line);
    if SameMembers(Map(a, line), Map(b, line)) {
      AscendingUnique(Map(SortById(a, uid), line), Map(SortById(b, uid), line), uid);
    }
  }

  lemma RenderingAscends<T(!new)>(s: seq<T>, uid: T -> string, line: T -> T)
    requires DistinctBy(s, uid) && KeepsId(line, uid)
    ensures Ascending(Map(SortById(s, uid), line), uid)
    ensures SameMembers(Map(SortById(s, uid), line), Map(s, line))
  {
    SortByIdAscends(s, uid);
    var sorted := SortById(s, uid);
    MapMembers(sorted, line);
    MapMembers(s, line);
  }

  // ---- the canonical form ----

  // Agreement on every field the narrative renders, whatever the order the
  // risk bases and evidence ids were recorded in.
  ghost predicate SaysTheSame(r: Requirement, q: Requirement) {
    && r.id == q.id && r.applicability == q.applicability && r.status == q.status
    && r.justification == q.justification && r.note == q.note
    && multiset(r.riskBasis) == multiset(q.riskBasis) && multiset(r.evidenceIds) == multiset(q.evidenceIds)
  }

  lemma SortedListsAgree<T(!new)>(a: seq<T>, b: seq<T>, leq: (T, T) -> bool)
    requires Total(leq) && Transitive(leq) && forall x, y :: leq(x, y) && leq(y, x) ==> x == y
    ensures SortBy(a, leq) == SortBy(b, leq) <==> multiset(a) == multiset(b)
  {
    SortKeepsItems(a, leq);
    SortKeepsItems(b, leq);
    SortIsSorted(a, leq);
    SortIsSorted(b, leq);
    if multiset(a) == multiset(b) {
      SortedUnique(SortBy(a, leq), SortBy(b, leq), leq);
    }
  }

  lemma LinesAgree(r: Requirement, q: Requirement)
    ensures RequirementLine(r) == RequirementLine(q) <==> SaysTheSame(r, q)
  {
    LexIsOrder();
    forall x, y | LexLeq(x, y) && LexLeq(y, x) ensures x == y {
      LexAntisymmetric(x, y);
    }
    SortedListsAgree(r.riskBasis, q.riskBasis, LexLeq);
    SortedListsAgree(r.evidenceIds, q.evidenceIds, IntLeq);
  }

  ghost predicate RequirementsAgree(a: seq<Requirement>, b: seq<Requirement>) {
    && (forall r :: r in a ==> exists q :: q in b && SaysTheSame(r, q))
    && (forall q :: q in b ==> exists r :: r in a && SaysTheSame(r, q))
  }

  lemma RequirementLinesAgree(a: seq<Requirement>, b: seq<Requirement>)
    ensures SameMembers(Map(a, RequirementLine), Map(b, RequirementLine)) <==> RequirementsAgree(a, b)
  {
    MapMembers(a, RequirementLine);
    MapMembers(b, RequirementLine);
    forall r, q ensures RequirementLine(r) == RequirementLine(q) <==> SaysTheSame(r, q) {
      LinesAgree(r, q);
    }
    if SameMembers(Map(a, RequirementLine), Map(b, RequirementLine)) {
      forall r | r in a ensures exists q :: q in b && SaysTheSame(r, q) {
        assert RequirementLine(r) in Map(a, RequirementLine);
      }
      forall q | q in b ensures exists r :: r in a && SaysTheSame(r, q) {
        assert RequirementLine(q) in Map(b, RequirementLine);
      }
    }
  }

  // Equal narratives are exactly equal content, up to the order of anything.
  lemma NarrativeIsCanonical(a: seq<Requirement>, ai: seq<UserItem>, b: seq<Requirement>, bi: seq<UserItem>)
    requires DistinctBy(a, RequirementId) && DistinctBy(b, RequirementId)
    requires DistinctBy(ai, ItemId) && DistinctBy(bi, ItemId)
    ensures Narrate(a, ai) == Narrate(b, bi) <==> RequirementsAgree(a, b) && SameMembers(ai, bi)
  {
    RenderingIsCanonical(a, b, RequirementId, RequirementLine);
    RequirementLinesAgree(a, b);
    RenderingIsCanonical(ai, bi, ItemId, ItemLine);
    assert Map(ai, ItemLine) == ai && Map(bi, ItemLine) == bi;
  }
}
