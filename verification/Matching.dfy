// Components joined to advisories, exploitation status and likelihood
// (src/cra/advisories/match.py).
module Matching {
  import opened Ordering
  import opened Strings

  type Id = string

  datatype ComponentKey = ComponentKey(ecosystem: Id, name: Id, version: Id)

  datatype Component = Component(name: Id, version: Id, ecosystem: Id, purl: Option<Id>) {
    function Key(): ComponentKey { ComponentKey(ecosystem, name, version) }
  }

  // A finding's identity leaves the ecosystem out.
  datatype FindingKey = FindingKey(advisory: Id, name: Id, version: Id)

  datatype Finding = Finding(advisory: Id, name: Id, version: Id, ecosystem: Id, cves: seq<Id>,
                             exploited: bool, kevCve: Option<Id>, prob: Option<real>, pct: Option<real>) {
    function Key(): FindingKey { FindingKey(advisory, name, version) }
  }

  datatype Score = Score(cve: Id, prob: real, pct: real)

  // The feeds as one scan sees them: aliases per advisory, the KEV catalogue's
  // ids (upper-cased when it was read), and the sparse EPSS table.
  datatype Feeds = Feeds(aliases: map<Id, seq<Id>>, kev: set<Id>, epss: map<Id, Score>)

  predicate IsCve(id: Id) { "CVE-" <= id }

  // ---- CVE aliases ----

  // Sorted, without repetition.
  function InsertUnique(x: Id, s: seq<Id>): seq<Id> {
    if s == [] then [x]
    else if x == s[0] then s
    else if LexLeq(x, s[0]) then [x] + s
    else [s[0]] + InsertUnique(x, s[1..])
  }

  function SortedSet(s: seq<Id>): seq<Id> {
    if s == [] then [] else InsertUnique(s[0], SortedSet(s[1..]))
  }

  lemma {:induction false} InsertUniqueMembers(x: Id, s: seq<Id>)
    ensures forall y :: y in InsertUnique(x, s) <==> y == x || y in s
  {
    if s != [] {
      assert s == [s[0]] + s[1..];
      InsertUniqueMembers(x, s[1..]);
    }
  }

  lemma {:induction false} SortedSetMembers(s: seq<Id>)
    ensures forall y :: y in SortedSet(s) <==> y in s
  {
    if s != [] {
      assert s == [s[0]] + s[1..];
      SortedSetMembers(s[1..]);
      InsertUniqueMembers(s[0], SortedSet(s[1..]));
    }
  }

  function Names(advisory: Id, feeds: Feeds): seq<Id> {
    [Upper(advisory)] + Map(if advisory in feeds.aliases then feeds.aliases[advisory] else [], Upper)
  }

  function CveIds(advisory: Id, feeds: Feeds): seq<Id> { SortedSet(Filter(Names(advisory, feeds), IsCve)) }

  function FirstIn(ids: seq<Id>, s: set<Id>): (r: Option<Id>)
    ensures r.None? <==> forall c :: c in ids ==> c !in s
    ensures r.Some? ==> r.value in ids && r.value in s
  {
    if ids == [] then None else if ids[0] in s then Some(ids[0]) else FirstIn(ids[1..], s)
  }

  // The first alias of highest percentile.
  function Worst(ids: seq<Id>, epss: map<Id, Score>): (r: Option<Score>)
    ensures r.None? <==> forall c :: c in ids ==> c !in epss
    ensures r.Some? ==> exists c :: c in ids && c in epss && epss[c] == r.value
    ensures r.Some? ==> forall c :: c in ids && c in epss ==> epss[c].pct <= r.value.pct
  {
    if ids == [] then None
    else
      var n := |ids| - 1;
      var best := Worst(ids[..n], epss);
      if ids[n] !in epss || (best.Some? && epss[ids[n]].pct <= best.value.pct) then best else Some(epss[ids[n]])
  }

  function FindingFor(comp: Component, advisory: Id, feeds: Feeds): Finding {
    var cves := CveIds(advisory, feeds);
    var kevHit := FirstIn(cves, feeds.kev);
    var top := Worst(cves, feeds.epss);
    Finding(advisory, comp.name, comp.version, comp.ecosystem, cves, kevHit.Some?, kevHit,
            if top.Some? then Some(top.value.prob) else None, if top.Some? then Some(top.value.pct) else None)
  }

  // A CVE the advisory goes by: its own id or one of its aliases, upper-cased, if
  // that starts like a CVE.
  ghost predicate GoesBy(advisory: Id, feeds: Feeds, cve: Id) {
    && "CVE-" <= cve
    && (cve == Upper(advisory)
        || (advisory in feeds.aliases && exists alias :: alias in feeds.aliases[advisory] && cve == Upper(alias)))
  }

  lemma CveIdsExactly(advisory: Id, feeds: Feeds, cve: Id)
    ensures cve in CveIds(advisory, feeds) <==> GoesBy(advisory, feeds, cve)
  {
    var aliases := if advisory in feeds.aliases then feeds.aliases[advisory] else [];
    MapMembers(aliases, Upper);
    FilterMembers(Names(advisory, feeds), IsCve);
    SortedSetMembers(Filter(Names(advisory, feeds), IsCve));
    assert cve in Names(advisory, feeds) <==> cve == Upper(advisory) || cve in Map(aliases, Upper);
  }

  // A finding names its component and its advisory's CVEs; it is exploited exactly
  // when one of those is on KEV, and scored, by the highest percentile among them,
  // exactly when one of them is scored.
  lemma FindingIsHonest(comp: Component, advisory: Id, feeds: Feeds)
    ensures var f := FindingFor(comp, advisory, feeds);
            && f.advisory == advisory && f.name == comp.name && f.version == comp.version
            && f.ecosystem == comp.ecosystem
            && (forall c :: c in f.cves <==> GoesBy(advisory, feeds, c))
            && (f.exploited <==> exists c :: GoesBy(advisory, feeds, c) && c in feeds.kev)
            && (f.exploited <==> f.kevCve.Some?)
            && (f.exploited ==> GoesBy(advisory, feeds, f.kevCve.value) && f.kevCve.value in feeds.kev)
            && (f.prob.Some? <==> f.pct.Some?)
            && (f.pct.Some? <==> exists c :: GoesBy(advisory, feeds, c) && c in feeds.epss)
            && (f.pct.Some? ==>
                  exists c :: GoesBy(advisory, feeds, c) && c in feeds.epss && feeds.epss[c].prob == f.prob.value
                              && feeds.epss[c].pct == f.pct.value)
            && (forall c :: GoesBy(advisory, feeds, c) && c in feeds.epss ==> feeds.epss[c].pct <= f.pct.value)
  {
    var cves := CveIds(advisory, feeds);
    forall c ensures c in cves <==> GoesBy(advisory, feeds, c) {
      CveIdsExactly(advisory, feeds, c);
    }
    var top := Worst(cves, feeds.epss);
    if top.Some? {
      var c :| c in cves && c in feeds.epss && feeds.epss[c] == top.value;
    }
  }

  // Each id comes strictly after the one before it.
  ghost predicate Ascends(s: seq<Id>) {
    forall i, j :: 0 <= i < j < |s| ==> LexLeq(s[i], s[j]) && s[i] != s[j]
  }

  // The id comes strictly before every one of these.
  ghost predicate Precedes(x: Id, s: seq<Id>) { forall y :: y in s ==> LexLeq(x, y) && x != y }

  lemma ConsAscends(x: Id, s: seq<Id>)
    requires Ascends(s) && Precedes(x, s)
    ensures Ascends([x] + s)
  {
    var r := [x] + s;
    forall j | 0 < j < |r| ensures LexLeq(x, r[j]) && x != r[j] {
      assert r[j] in s;
    }
  }

  lemma HeadPrecedes(s: seq<Id>)
    requires Ascends(s) && s != []
    ensures Ascends(s[1..]) && Precedes(s[0], s[1..])
  {
  }

  lemma SmallerPrecedes(x: Id, s: seq<Id>)
    requires Ascends(s) && s != [] && LexLeq(x, s[0]) && x != s[0]
    ensures Precedes(x, s)
  {
    forall y | y in s ensures LexLeq(x, y) && x != y {
      var j :| 0 <= j < |s| && s[j] == y;
      if j > 0 {
        LexTransitive(x, s[0], y);
        if x == y {
          LexAntisymmetric(x, s[0]);
        }
      }
    }
  }

  lemma {:induction false} InsertUniqueAscends(x: Id, s: seq<Id>)
    requires Ascends(s)
    ensures Ascends(InsertUnique(x, s))
  {
    if s == [] || x == s[0] {
    } else if LexLeq(x, s[0]) {
      SmallerPrecedes(x, s);
      ConsAscends(x, s);
    } else {
      LexTotal(x, s[0]);
      HeadPrecedes(s);
      InsertUniqueAscends(x, s[1..]);
      InsertUniqueMembers(x, s[1..]);
      ConsAscends(s[0], InsertUnique(x, s[1..]));
    }
  }

  lemma {:induction false} SortedSetAscends(s: seq<Id>)
    ensures Ascends(SortedSet(s))
  {
    if s != [] {
      SortedSetAscends(s[1..]);
      InsertUniqueAscends(s[0], SortedSet(s[1..]));
    }
  }

  lemma {:induction false} FirstInIsLeast(ids: seq<Id>, s: set<Id>, c: Id)
    requires Ascends(ids) && c in ids && c in s
    ensures FirstIn(ids, s).Some? && LexLeq(FirstIn(ids, s).value, c)
  {
    LexTotal(c, c);
    if ids[0] !in s {
      assert ids == [ids[0]] + ids[1..];
      FirstInIsLeast(ids[1..], s, c);
    }
  }

  lemma {:induction false} WorstIsFirst(ids: seq<Id>, epss: map<Id, Score>) returns (i: nat)
    requires Worst(ids, epss).Some?
    ensures i < |ids| && ids[i] in epss && epss[ids[i]] == Worst(ids, epss).value
    ensures forall j :: 0 <= j < i && ids[j] in epss ==> epss[ids[j]].pct < epss[ids[i]].pct
  {
    var n := |ids| - 1;
    if Worst(ids, epss) == Worst(ids[..n], epss) && Worst(ids[..n], epss).Some? {
      i := WorstIsFirst(ids[..n], epss);
    } else {
      i := n;
      forall j | 0 <= j < n && ids[j] in epss ensures epss[ids[j]].pct < epss[ids[n]].pct {
        assert ids[j] in ids[..n];
      }
    }
  }

  lemma FirstIsLeast(ids: seq<Id>, epss: map<Id, Score>, i: nat, id: Id)
    requires Ascends(ids) && i < |ids| && ids[i] in epss && id in ids && id in epss
    requires epss[id].pct == epss[ids[i]].pct
    requires forall j :: 0 <= j < i && ids[j] in epss ==> epss[ids[j]].pct < epss[ids[i]].pct
    ensures LexLeq(ids[i], id)
  {
    var j :| 0 <= j < |ids| && ids[j] == id;
    LexTotal(id, id);
  }

  // The score reported is that of the first CVE among those of highest percentile.
  lemma ScoreIsOfTheFirst(comp: Component, advisory: Id, feeds: Feeds, cve: Id) returns (first: Id)
    requires GoesBy(advisory, feeds, cve) && cve in feeds.epss
    requires FindingFor(comp, advisory, feeds).pct == Some(feeds.epss[cve].pct)
    ensures GoesBy(advisory, feeds, first) && first in feeds.epss && LexLeq(first, cve)
    ensures FindingFor(comp, advisory, feeds).prob == Some(feeds.epss[first].prob)
  {
    var cves := CveIds(advisory, feeds);
    CveIdsExactly(advisory, feeds, cve);
    SortedSetAscends(Filter(Names(advisory, feeds), IsCve));
    var i := WorstIsFirst(cves, feeds.epss);
    first := cves[i];
    CveIdsExactly(advisory, feeds, first);
    FirstIsLeast(cves, feeds.epss, i, cve);
  }

  // The CVEs are in order, and the listing reported is the first of them on KEV.
  lemma ListingIsTheFirst(comp: Component, advisory: Id, feeds: Feeds, cve: Id)
    requires GoesBy(advisory, feeds, cve) && cve in feeds.kev
    ensures var f := FindingFor(comp, advisory, feeds);
            Ascends(f.cves) && f.kevCve.Some? && LexLeq(f.kevCve.value, cve)
  {
    CveIdsExactly(advisory, feeds, cve);
    SortedSetAscends(Filter(Names(advisory, feeds), IsCve));
    FirstInIsLeast(CveIds(advisory, feeds), feeds.kev, cve);
  }

  // ---- queue order ----

  function Tier(f: Finding): int { if f.exploited then 0 else 1 }

  function Weight(f: Finding): real { if f.pct.Some? then -f.pct.value else 1.0 }

  // `rank()`: tuples compared left to right.
  predicate RankLeq(f: Finding, g: Finding) {
    Tier(f) < Tier(g) || (Tier(f) == Tier(g) &&
    (Weight(f) < Weight(g) || (Weight(f) == Weight(g) && LexLeq(f.advisory, g.advisory))))
  }

  // The first two keys of the stored queue's ORDER BY: exploited first, then
  // percentile descending, nulls last.
  predicate QueueLeq(ex: bool, pct: Option<real>, ex': bool, pct': Option<real>) {
    if ex != ex' then ex else if pct'.None? then true else pct.Some? && pct.value >= pct'.value
  }

  lemma RankIsOrder()
    ensures Total(RankLeq) && Transitive(RankLeq)
  {
    LexIsOrder();
  }

  // Both orders agree on every pair of findings, for scores in [0, 1].
  lemma RankAgreesWithQueue(f: Finding, g: Finding)
    requires f.pct.Some? ==> 0.0 <= f.pct.value <= 1.0
    requires g.pct.Some? ==> 0.0 <= g.pct.value <= 1.0
    ensures RankLeq(f, g) ==> QueueLeq(f.exploited, f.pct, g.exploited, g.pct)
    ensures RankLeq(f, g) || QueueLeq(g.exploited, g.pct, f.exploited, f.pct)
    ensures !QueueLeq(g.exploited, g.pct, f.exploited, f.pct) ==> RankLeq(f, g) && !RankLeq(g, f)
  {
    LexTotal(f.advisory, g.advisory);
  }

  // ---- joining ----

  datatype Match = Match(comp: Component, advisory: Id)

  // One match per listed advisory of each known component.
  function MatchesOf(comp: Component, ids: seq<Id>): seq<Match> { Map(ids, MatchOf(comp)) }

  function MatchOf(comp: Component): Id -> Match { (id: Id) => Match(comp, id) }

  function ByKey(comps: seq<Component>, key: ComponentKey): (r: Option<Component>)
    ensures r.Some? ==> r.value in comps && r.value.Key() == key
    ensures r.None? ==> forall c :: c in comps ==> c.Key() != key
  {
    if comps == [] then None
    else if comps[|comps| - 1].Key() == key then Some(comps[|comps| - 1])
    else ByKey(comps[..|comps| - 1], key)
  }

  function Matches(comps: seq<Component>, items: seq<(ComponentKey, seq<Id>)>): seq<Match> {
    if items == [] then []
    else
      var n := |items| - 1;
      Matches(comps, items[..n]) + (match ByKey(comps, items[n].0) case None => [] case Some(c) => MatchesOf(c,
        items[n].1))
  }

  function Findings(ms: seq<Match>, feeds: Feeds): seq<Finding> {
    Map(ms, (m: Match) => FindingFor(m.comp, m.advisory, feeds))
  }

  // Component keys compare field by field.
  predicate KeyLeq(k: ComponentKey, l: ComponentKey) {
    if k.ecosystem != l.ecosystem then LexLeq(k.ecosystem, l.ecosystem)
    else if k.name != l.name then LexLeq(k.name, l.name)
    else LexLeq(k.version, l.version)
  }

  function KeyOfItem(): ((ComponentKey, seq<Id>)) -> ComponentKey { (i: (ComponentKey, seq<Id>)) => i.0 }

  function ByItemKey(): ((ComponentKey, seq<Id>), (ComponentKey, seq<Id>)) -> bool {
    (i: (ComponentKey, seq<Id>), j: (ComponentKey, seq<Id>)) => KeyLeq(i.0, j.0)
  }

  // The queue of one scan: the query result in key order, joined and ranked.
  function Queue(comps: seq<Component>, found: seq<(ComponentKey, seq<Id>)>, feeds: Feeds): seq<Finding> {
    SortBy(Findings(Matches(comps, SortBy(found, ByItemKey())), feeds), RankLeq)
  }

  // `found` is the query result in the order it was recorded.
  method BuildFindings(comps: seq<Component>, found: seq<(ComponentKey, seq<Id>)>, feeds: Feeds)
    returns (r: seq<Finding>)
    ensures r == Queue(comps, found, feeds)
  {
    var items := SortBy(found, ByItemKey());
    r := [];
    for i := 0 to |items|
      invariant r == Findings(Matches(comps, items[..i]), feeds)
    {
      assert items[..i + 1][..i] == items[..i];
      var comp := ByKey(comps, items[i].0);
      if comp.None? {
        assert Matches(comps, items[..i]) + [] == Matches(comps, items[..i]);
        continue;
      }
      ghost var before := Matches(comps, items[..i]);
      var ids := items[i].1;
      for j := 0 to |ids|
        invariant r == Findings(before + MatchesOf(comp.value, ids[..j]), feeds)
      {
        OneMoreFinding(before, comp.value, ids, j, feeds);
        r := r + [FindingFor(comp.value, ids[j], feeds)];
      }
      assert ids[..|ids|] == ids;
    }
    assert items[..|items|] == items;
    r := SortBy(r, RankLeq);
  }

  lemma KeyIsOrder()
    ensures Total(ByItemKey()) && Transitive(ByItemKey())
    ensures forall k, l :: KeyLeq(k, l) && KeyLeq(l, k) ==> k == l
  {
    LexIsOrder();
    forall k, l | KeyLeq(k, l) && KeyLeq(l, k) ensures k == l {
      if k.ecosystem != l.ecosystem {
        LexAntisymmetric(k.ecosystem, l.ecosystem);
      } else if k.name != l.name {
        LexAntisymmetric(k.name, l.name);
      } else {
        LexAntisymmetric(k.version, l.version);
      }
    }
  }

  // The order the answers were recorded in leaves no trace in the queue.
  lemma QueueIgnoresRecordOrder(comps: seq<Component>, found: seq<(ComponentKey, seq<Id>)>,
                                other: seq<(ComponentKey, seq<Id>)>, feeds: Feeds)
    requires DistinctBy(found, KeyOfItem()) && multiset(found) == multiset(other)
    ensures Queue(comps, found, feeds) == Queue(comps, other, feeds)
  {
    var a, b := SortBy(found, ByItemKey()), SortBy(other, ByItemKey());
    KeyIsOrder();
    SortIsSorted(found, ByItemKey());
    SortIsSorted(other, ByItemKey());
    SortKeepsItems(found, ByItemKey());
    SortKeepsItems(other, ByItemKey());
    forall x, y | x in a && y in a && ByItemKey()(x, y) && ByItemKey()(y, x) ensures x == y {
      SameKeySameItem(found, x, y);
    }
    SortedUnique(a, b, ByItemKey());
  }

  lemma SameKeySameItem(found: seq<(ComponentKey, seq<Id>)>, x: (ComponentKey, seq<Id>), y: (ComponentKey, seq<Id>))
    requires DistinctBy(found, KeyOfItem()) && x in found && y in found && x.0 == y.0
    ensures x == y
  {
    assert KeyOfItem()(x) == KeyOfItem()(y);
  }

  lemma OneMoreFinding(before: seq<Match>, comp: Component, ids: seq<Id>, j: nat, feeds: Feeds)
    requires j < |ids|
    ensures Findings(before + MatchesOf(comp, ids[..j + 1]), feeds)
            == Findings(before + MatchesOf(comp, ids[..j]), feeds) + [FindingFor(comp, ids[j], feeds)]
  {
    assert before + MatchesOf(comp, ids[..j + 1]) == (before + MatchesOf(comp, ids[..j])) + [Match(comp, ids[j])];
  }

  lemma ScoresInRange(ms: seq<Match>, feeds: Feeds, f: Finding)
    requires forall c :: c in feeds.epss ==> 0.0 <= feeds.epss[c].pct <= 1.0
    requires f in Findings(ms, feeds)
    ensures f.pct.Some? ==> 0.0 <= f.pct.value <= 1.0
  {
    var k :| 0 <= k < |ms| && Findings(ms, feeds)[k] == f;
    FindingIsHonest(ms[k].comp, ms[k].advisory, feeds);
  }

  // The order a queue is worked in: what is exploited, then the higher percentile
  // and the unscored after every scored one, then the advisory's id.
  ghost predicate WorkedBefore(f: Finding, g: Finding) {
    if f.exploited != g.exploited then f.exploited
    else if f.pct != g.pct then g.pct == None || (f.pct.Some? && f.pct.value > g.pct.value)
    else LexLeq(f.advisory, g.advisory)
  }

  // The queue holds one finding per match, exploited first, then scored by
  // falling percentile, then unscored.
  lemma QueueIsComplete(comps: seq<Component>, found: seq<(ComponentKey, seq<Id>)>, feeds: Feeds)
    requires forall c :: c in feeds.epss ==> 0.0 <= feeds.epss[c].pct <= 1.0
    ensures var q := Queue(comps, found, feeds);
            && multiset(q) == multiset(Findings(Matches(comps, SortBy(found, ByItemKey())), feeds))
            && forall i, j :: 0 <= i < j < |q| ==> QueueLeq(q[i].exploited, q[i].pct, q[j].exploited, q[j].pct)
    ensures var q := Queue(comps, found, feeds);
            forall i, j :: 0 <= i < j < |q| ==> WorkedBefore(q[i], q[j])
  {
    var ms := Matches(comps, SortBy(found, ByItemKey()));
    var q := SortBy(Findings(ms, feeds), RankLeq);
    SortKeepsItems(Findings(ms, feeds), RankLeq);
    RankIsOrder();
    SortIsSorted(Findings(ms, feeds), RankLeq);
    forall i, j | 0 <= i < j < |q|
      ensures QueueLeq(q[i].exploited, q[i].pct, q[j].exploited, q[j].pct) && WorkedBefore(q[i], q[j])
    {
      assert q[i] in q && q[j] in q;
      ScoresInRange(ms, feeds, q[i]);
      ScoresInRange(ms, feeds, q[j]);
      RankAgreesWithQueue(q[i], q[j]);
    }
  }

  // The findings of one place in the queue's order.
  function TiesWith(f: Finding): Finding -> bool {
    (g: Finding) => g.exploited == f.exploited && g.pct == f.pct && g.advisory == f.advisory
  }

  lemma TiesRankAlike(joined: seq<Finding>, f: Finding)
    ensures var ties := Filter(joined, TiesWith(f)); forall x, y :: x in ties && y in ties ==> RankLeq(x, y)
  {
    FilterMembers(joined, TiesWith(f));
    LexTotal(f.advisory, f.advisory);
  }

  // Findings that tie stay in the order they were joined in.
  lemma TiesKeepTheirOrder(comps: seq<Component>, found: seq<(ComponentKey, seq<Id>)>, feeds: Feeds, f: Finding)
    ensures Filter(Queue(comps, found, feeds), TiesWith(f))
            == Filter(Findings(Matches(comps, SortBy(found, ByItemKey())), feeds), TiesWith(f))
  {
    var joined := Findings(Matches(comps, SortBy(found, ByItemKey())), feeds);
    RankIsOrder();
    FilterOfSort(joined, RankLeq, TiesWith(f));
    TiesRankAlike(joined, f);
    SortOfTies(Filter(joined, TiesWith(f)), RankLeq);
  }

  lemma MatchIn(comp: Component, ids: seq<Id>, m: Match)
    ensures m in MatchesOf(comp, ids) <==> m.comp == comp && m.advisory in ids
  {
    MapMembers(ids, MatchOf(comp));
    assert MatchOf(comp)(m.advisory) == Match(comp, m.advisory);
  }

  ghost predicate ListedIn(comps: seq<Component>, item: (ComponentKey, seq<Id>), m: Match) {
    ByKey(comps, item.0) == Some(m.comp) && m.advisory in item.1
  }

  // Which matches exist: exactly the listed advisories of the known components.
  lemma {:induction false} MatchesAreListed(comps: seq<Component>, items: seq<(ComponentKey, seq<Id>)>, m: Match)
    ensures m in Matches(comps, items) <==> exists item :: item in items && ListedIn(comps, item, m)
  {
    if items != [] {
      var front, last := items[..|items| - 1], items[|items| - 1];
      assert items == front + [last];
      MatchesAreListed(comps, front, m);
      if ByKey(comps, last.0).Some? {
        MatchIn(ByKey(comps, last.0).value, last.1, m);
      }
      assert last in items && forall item :: item in items <==> item in front || item == last;
      assert m in Matches(comps, items) <==> m in Matches(comps, front) || ListedIn(comps, last, m);
    }
  }

  // Components in the order of their ecosystem, then name, then version.
  ghost predicate ListedBefore(c: Component, d: Component) {
    if c.ecosystem != d.ecosystem then LexLeq(c.ecosystem, d.ecosystem)
    else if c.name != d.name then LexLeq(c.name, d.name)
    else LexLeq(c.version, d.version)
  }

  lemma MatchHasItsKey(comps: seq<Component>, items: seq<(ComponentKey, seq<Id>)>, m: Match)
    returns (item: (ComponentKey, seq<Id>))
    requires m in Matches(comps, items)
    ensures item in items && m.comp.Key() == item.0
  {
    MatchesAreListed(comps, items, m);
    item :| item in items && ListedIn(comps, item, m);
  }

  // Advisories are joined component by component, in that order.
  lemma {:induction false} JoinedInOrder(comps: seq<Component>, items: seq<(ComponentKey, seq<Id>)>, i: nat, j: nat)
    requires Sorted(items, ByItemKey()) && i < j < |Matches(comps, items)|
    ensures ListedBefore(Matches(comps, items)[i].comp, Matches(comps, items)[j].comp)
  {
    var front, last := items[..|items| - 1], items[|items| - 1];
    var ms, before := Matches(comps, items), Matches(comps, front);
    if j < |before| {
      JoinedInOrder(comps, front, i, j);
    } else {
      assert ms[j] in MatchesOf(ByKey(comps, last.0).value, last.1);
      MatchIn(ByKey(comps, last.0).value, last.1, ms[j]);
      if i < |before| {
        var item := MatchHasItsKey(comps, front, before[i]);
        var p :| 0 <= p < |front| && front[p] == item;
        assert ByItemKey()(items[p], last);
      } else {
        assert ms[i] in MatchesOf(ByKey(comps, last.0).value, last.1);
        MatchIn(ByKey(comps, last.0).value, last.1, ms[i]);
        LexTotal(last.0.version, last.0.version);
      }
    }
  }

  // ---- when finding keys are distinct ----

  function KeyOfMatch(): Match -> FindingKey { (m: Match) => FindingKey(m.advisory, m.comp.name, m.comp.version) }

  function KeyOfFinding(): Finding -> FindingKey { (f: Finding) => f.Key() }

  // No advisory is listed twice for a known component, and no two known
  // components of one name and version share an advisory.
  ghost predicate Separable(comps: seq<Component>, items: seq<(ComponentKey, seq<Id>)>) {
    && (forall i, a, b :: 0 <= i < |items| && ByKey(comps, items[i].0).Some? && 0 <= a < b < |items[i].1| ==>
      items[i].1[a] != items[i].1[b])
    && (forall i, j, id :: 0 <= i < j < |items| && Confusable(comps, items[i].0, items[j].0) && id in items[i].1 ==>
      id !in items[j].1)
  }

  predicate Confusable(comps: seq<Component>, k: ComponentKey, l: ComponentKey) {
    ByKey(comps, k).Some? && ByKey(comps, l).Some? && k.name == l.name && k.version == l.version
  }

  lemma DistinctMatchesOf(comp: Component, ids: seq<Id>)
    ensures DistinctBy(MatchesOf(comp, ids), KeyOfMatch()) <==> forall a, b :: 0 <= a < b < |ids| ==> ids[a] != ids[b]
  {
    var ms := MatchesOf(comp, ids);
    forall a, b | 0 <= a < b < |ids| ensures ids[a] != ids[b] <==> KeyOfMatch()(ms[a]) != KeyOfMatch()(ms[b]) {
    }
  }

  lemma {:induction false} DistinctMatches(comps: seq<Component>, items: seq<(ComponentKey, seq<Id>)>)
    ensures DistinctBy(Matches(comps, items), KeyOfMatch()) <==> Separable(comps, items)
  {
    if items != [] {
      var n := |items| - 1;
      var before := Matches(comps, items[..n]);
      DistinctMatches(comps, items[..n]);
      SeparableStep(comps, items);
      var last := ByKey(comps, items[n].0);
      if last.Some? {
        var ms := MatchesOf(last.value, items[n].1);
        DistinctConcat(before, ms, KeyOfMatch());
        DistinctMatchesOf(last.value, items[n].1);
        Collisions(comps, items);
      } else {
        assert before + [] == before;
      }
    }
  }

  ghost predicate LastClashes(comps: seq<Component>, items: seq<(ComponentKey, seq<Id>)>)
    requires items != []
  {
    var n := |items| - 1;
    exists i, id :: 0 <= i < n && Confusable(comps, items[i].0, items[n].0) && id in items[i].1 && id in items[n].1
  }

  lemma SeparableStep(comps: seq<Component>, items: seq<(ComponentKey, seq<Id>)>)
    requires items != []
    ensures var n := |items| - 1;
            Separable(comps, items) <==>
            && Separable(comps, items[..n])
            && (ByKey(comps, items[n].0).Some? ==> forall a, b :: 0 <= a < b < |items[n].1| ==>
              items[n].1[a] != items[n].1[b])
            && !LastClashes(comps, items)
  {
    var n := |items| - 1;
    assert forall i :: 0 <= i < n ==> items[..n][i] == items[i];
  }

  // An earlier match shares a key with one of the last component's exactly when
  // the last component clashes.
  lemma Collisions(comps: seq<Component>, items: seq<(ComponentKey, seq<Id>)>)
    requires items != [] && ByKey(comps, items[|items| - 1].0).Some?
    ensures var n := |items| - 1;
            var ms := MatchesOf(ByKey(comps, items[n].0).value, items[n].1);
            (exists x, y :: x in Matches(comps, items[..n]) && y in ms && KeyOfMatch()(x) == KeyOfMatch()(y))
            <==> LastClashes(comps, items)
  {
    var n := |items| - 1;
    var ms := MatchesOf(ByKey(comps, items[n].0).value, items[n].1);
    if x, y :| x in Matches(comps, items[..n]) && y in ms && KeyOfMatch()(x) == KeyOfMatch()(y) {
      CollisionClashes(comps, items, x, y);
    }
    if LastClashes(comps, items) {
      var x, y := ClashCollides(comps, items);
      assert x in Matches(comps, items[..n]) && y in ms && KeyOfMatch()(x) == KeyOfMatch()(y);
    }
  }

  lemma CollisionClashes(comps: seq<Component>, items: seq<(ComponentKey, seq<Id>)>, x: Match, y: Match)
    requires items != [] && ByKey(comps, items[|items| - 1].0).Some? && KeyOfMatch()(x) == KeyOfMatch()(y)
    requires x in Matches(comps, items[..|items| - 1])
    requires y in MatchesOf(ByKey(comps, items[|items| - 1].0).value, items[|items| - 1].1)
    ensures LastClashes(comps, items)
  {
    var n := |items| - 1;
    MatchesAreListed(comps, items[..n], x);
    MatchIn(ByKey(comps, items[n].0).value, items[n].1, y);
    var item :| item in items[..n] && ListedIn(comps, item, x);
    var i :| 0 <= i < n && items[..n][i] == item;
    assert items[i] == item && Confusable(comps, items[i].0, items[n].0);
    assert x.advisory in items[i].1 && x.advisory in items[n].1;
  }

  lemma ClashCollides(comps: seq<Component>, items: seq<(ComponentKey, seq<Id>)>) returns (x: Match, y: Match)
    requires items != [] && LastClashes(comps, items)
    ensures x in Matches(comps, items[..|items| - 1]) && KeyOfMatch()(x) == KeyOfMatch()(y)
    ensures ByKey(comps, items[|items| - 1].0).Some?
    ensures y in MatchesOf(ByKey(comps, items[|items| - 1].0).value, items[|items| - 1].1)
  {
    var n := |items| - 1;
    var i, id :| 0 <= i < n && Confusable(comps, items[i].0, items[n].0) && id in items[i].1 && id in items[n].1;
    x, y := Match(ByKey(comps, items[i].0).value, id), Match(ByKey(comps, items[n].0).value, id);
    MatchesAreListed(comps, items[..n], x);
    assert items[..n][i] == items[i] && ListedIn(comps, items[i], x);
    MatchIn(ByKey(comps, items[n].0).value, items[n].1, y);
  }

  lemma FindingKeys(ms: seq<Match>, feeds: Feeds)
    ensures DistinctBy(Findings(ms, feeds), KeyOfFinding()) <==> DistinctBy(ms, KeyOfMatch())
  {
    var fs := Findings(ms, feeds);
    assert forall i :: 0 <= i < |ms| ==> KeyOfFinding()(fs[i]) == KeyOfMatch()(ms[i]);
  }

  // The queue's keys are distinct exactly when the scan was separable.
  lemma QueueKeysDistinct(comps: seq<Component>, found: seq<(ComponentKey, seq<Id>)>, feeds: Feeds)
    ensures DistinctBy(Queue(comps, found, feeds), KeyOfFinding()) <==> Separable(comps, SortBy(found, ByItemKey()))
  {
    var items := SortBy(found, ByItemKey());
    var ms := Matches(comps, items);
    SortKeepsDistinct(Findings(ms, feeds), RankLeq, KeyOfFinding());
    DistinctMatches(comps, items);
    FindingKeys(ms, feeds);
  }
}
