// Reading the bill of materials and asking the outside feeds about it
// (src/cra/advisories/sbom.py, src/cra/advisories/feeds.py).
module Feeds {
  import opened Ordering
  import opened Matching

  // ---- the bill of materials ----

  // How a package URL reads: a component, a URL without a version, or nothing
  // the advisory database can be asked about.
  datatype Reading = Usable(comp: Component) | NoVersion | Unusable

  datatype SbomEntry = NotAnObject | Package(purl: string)

  datatype Document = Unparseable | Unrecognised | CycloneDx(entries: seq<SbomEntry>) | Spdx(entries: seq<SbomEntry>)

  datatype Parsed = Parsed(components: seq<Component>, total: nat, noVersion: nat, unknownEcosystem: nat)

  function Read(read: string -> Reading, e: SbomEntry): Reading
    requires e.Package?
  {
    if e.purl == "" then Unusable else read(e.purl)
  }

  function CountReadings(read: string -> Reading, es: seq<SbomEntry>, want: Reading -> bool): nat {
    if es == [] then 0
    else CountReadings(read, es[..|es| - 1], want)
         + if es[|es| - 1].Package? && want(Read(read, es[|es| - 1])) then 1 else 0
  }

  function Strays(es: seq<SbomEntry>): nat {
    if es == [] then 0 else Strays(es[..|es| - 1]) + if es[|es| - 1].NotAnObject? then 1 else 0
  }

  function KeyOfComponent(): Component -> ComponentKey { (c: Component) => c.Key() }

  // The entry carries a package URL that reads as a component.
  ghost predicate Gives(read: string -> Reading, e: SbomEntry) {
    e.Package? && e.purl != "" && read(e.purl).Usable?
  }

  // Component c first appears, under its ecosystem, name and version, at entry i.
  ghost predicate FirstUse(read: string -> Reading, es: seq<SbomEntry>, i: int, c: Component) {
    && 0 <= i < |es| && Gives(read, es[i]) && read(es[i].purl) == Usable(c)
    && forall j :: 0 <= j < i && Gives(read, es[j]) ==>
         var d := read(es[j].purl).comp; d.ecosystem != c.ecosystem || d.name != c.name || d.version != c.version
  }

  ghost predicate Introduced(read: string -> Reading, es: seq<SbomEntry>, c: Component) {
    exists i :: FirstUse(read, es, i, c)
  }

  // The first component of a key is kept, and later ones are not.
  method Keep(seen: seq<Component>, comp: Component) returns (after: seq<Component>)
    requires DistinctBy(seen, KeyOfComponent())
    ensures DistinctBy(after, KeyOfComponent())
    ensures after == if ByKey(seen, comp.Key()).None? then seen + [comp] else seen
  {
    after := seen;
    if ByKey(seen, comp.Key()).None? {
      DistinctConcat(seen, [comp], KeyOfComponent());
      after := seen + [comp];
    }
  }

  method Parse(read: string -> Reading, doc: Document) returns (p: Parsed)
    ensures doc.Unparseable? || doc.Unrecognised? ==> p == Parsed([], 0, 0, 0)
    ensures doc.CycloneDx? || doc.Spdx? ==>
              && p.total == |doc.entries|
              && p.noVersion == CountReadings(read, doc.entries, (r: Reading) => r.NoVersion?)
              && p.unknownEcosystem == CountReadings(read, doc.entries, (r: Reading) => r.Unusable?)
              && DistinctBy(p.components, KeyOfComponent())
              && forall c :: c in p.components <==> Introduced(read, doc.entries, c)
  {
    if doc.Unparseable? || doc.Unrecognised? {
      return Parsed([], 0, 0, 0);
    }
    var es := doc.entries;
    var seen: seq<Component> := [];
    var noVersion, unknownEco := 0, 0;
    for i := 0 to |es|
      invariant noVersion == CountReadings(read, es[..i], (r: Reading) => r.NoVersion?)
      invariant unknownEco == CountReadings(read, es[..i], (r: Reading) => r.Unusable?)
      invariant DistinctBy(seen, KeyOfComponent())
      invariant forall c :: c in seen <==> Introduced(read, es[..i], c)
      invariant forall j :: 0 <= j < i && es[j].Package? && Read(read, es[j]).Usable? ==>
                ByKey(seen, Read(read, es[j]).comp.Key()).Some?
    {
      ghost var before := seen;
      assert es[..i + 1][..i] == es[..i] && es[..i + 1] == es[..i] + [es[i]];
      if es[i].Package? {
        var r := Read(read, es[i]);
        match r {
          case NoVersion => noVersion := noVersion + 1;
          case Unusable => unknownEco := unknownEco + 1;
          case Usable(comp) => seen := Keep(seen, comp);
        }
      }
      SeenStep(read, es, i, before, seen);
    }
    assert es[..|es|] == es;
    return Parsed(seen, |es|, noVersion, unknownEco);
  }

  lemma SeenStep(read: string -> Reading, es: seq<SbomEntry>, i: nat, before: seq<Component>, after: seq<Component>)
    requires i < |es|
    requires forall c :: c in before <==> Introduced(read, es[..i], c)
    requires forall j :: 0 <= j < i && es[j].Package? && Read(read, es[j]).Usable? ==>
             ByKey(before, Read(read, es[j]).comp.Key()).Some?
    requires after == if es[i].Package? && Read(read, es[i]).Usable?
             && ByKey(before, Read(read, es[i]).comp.Key()).None?
                      then before + [Read(read, es[i]).comp] else before
    ensures forall c :: c in after <==> Introduced(read, es[..i + 1], c)
    ensures forall j :: 0 <= j <= i && es[j].Package? && Read(read, es[j]).Usable? ==>
            ByKey(after, Read(read, es[j]).comp.Key()).Some?
  {
    var longer := es[..i + 1];
    assert forall j :: 0 <= j < i ==> longer[j] == es[..i][j] == es[j];
    forall c ensures c in after <==> Introduced(read, longer, c) {
      if c in before {
        var j :| FirstUse(read, es[..i], j, c);
        assert FirstUse(read, longer, j, c);
      } else if c in after {
        forall j | 0 <= j < i && longer[j].Package? && Read(read, longer[j]).Usable?
          ensures Read(read, longer[j]).comp.Key() != c.Key()
        {
          var k := ByKey(before, Read(read, es[j]).comp.Key());
        }
        assert FirstUse(read, longer, i, c);
      } else {
        forall j ensures !FirstUse(read, longer, j, c) {
          assert !FirstUse(read, es[..i], j, c);
          if es[i].Package? && Read(read, es[i]) == Usable(c) {
            var k := ByKey(before, c.Key()).value;
            var m :| FirstUse(read, es[..i], m, k);
            assert longer[m] == es[m];
          }
        }
      }
    }
    forall j | 0 <= j <= i && es[j].Package? && Read(read, es[j]).Usable?
      ensures ByKey(after, Read(read, es[j]).comp.Key()).Some?
    {
      if j == i && ByKey(before, Read(read, es[i]).comp.Key()).None? {
        assert Read(read, es[i]).comp in after;
      } else {
        assert ByKey(before, Read(read, es[j]).comp.Key()).value in after;
      }
    }
  }

  lemma {:induction false} CountIsPlaces(read: string -> Reading, es: seq<SbomEntry>, want: Reading -> bool,
                                         sort: SbomEntry -> bool)
    requires forall e: SbomEntry :: sort(e) <==> e.Package? && want(Read(read, e))
    ensures CountReadings(read, es, want) == |Places(es, sort)|
  {
    if es != [] {
      var front, last := es[..|es| - 1], es[|es| - 1];
      CountIsPlaces(read, front, want, sort);
      OneMorePlace(front, last, sort);
      assert es == front + [last];
    }
  }

  // A package URL without a version.
  ghost function LacksVersion(read: string -> Reading): SbomEntry -> bool {
    (e: SbomEntry) => e.Package? && e.purl != "" && read(e.purl).NoVersion?
  }

  // Nothing the advisory database can be asked about, an empty URL included.
  ghost function Unaskable(read: string -> Reading): SbomEntry -> bool {
    (e: SbomEntry) => e.Package? && (e.purl == "" || read(e.purl).Unusable?)
  }

  // The two skip counters count just those entries.
  lemma SkipsAreCounted(read: string -> Reading, es: seq<SbomEntry>)
    ensures CountReadings(read, es, (r: Reading) => r.NoVersion?) == |Places(es, LacksVersion(read))|
    ensures CountReadings(read, es, (r: Reading) => r.Unusable?) == |Places(es, Unaskable(read))|
  {
    CountIsPlaces(read, es, (r: Reading) => r.NoVersion?, LacksVersion(read));
    CountIsPlaces(read, es, (r: Reading) => r.Unusable?, Unaskable(read));
  }

  // Nothing is dropped silently: every entry that is an object is a component
  // or is counted under the reason it could not be checked.
  lemma {:induction false} NothingDroppedSilently(read: string -> Reading, es: seq<SbomEntry>)
    ensures |es| == Strays(es) + CountReadings(read, es, (r: Reading) => r.NoVersion?)
            + CountReadings(read, es, (r: Reading) => r.Unusable?)
                    + CountReadings(read, es, (r: Reading) => r.Usable?)
  {
    if es != [] {
      NothingDroppedSilently(read, es[..|es| - 1]);
    }
  }

  // ---- the batch query ----

  // Components go out 100 to a request.  A reply lists, per query, the advisory ids it carries ("" where an entry
  // has none); a failed or malformed reply is no reply.
  datatype Reply = Failed | Results(ids: seq<seq<Id>>)

  function Clean(ids: seq<Id>): seq<Id> { Filter(ids, (id: Id) => id != "") }

  // Only the blank ids of a reply are dropped, and the rest keep their order.
  lemma BlanksAreDropped(a: seq<Id>, b: seq<Id>)
    ensures Clean(a + [""] + b) == Clean(a + b)
    ensures "" !in a ==> Clean(a) == a
  {
    var p := (id: Id) => id != "";
    FilterConcat(a + [""], b, p);
    FilterConcat(a, [""], p);
    FilterConcat(a, b, p);
    NothingKept([""], p);
    assert Filter(a, p) + [] == Filter(a, p);
    if "" !in a {
      EverythingKept(a, p);
    }
  }

  // What the i-th component was told: its place in its own chunk's reply.
  function AnswerTo(replies: nat -> Reply, i: nat): seq<Id> {
    var reply := replies(i / 100);
    if reply.Results? && i % 100 < |reply.ids| then Clean(reply.ids[i % 100]) else []
  }

  type ByComponent = map<ComponentKey, seq<Id>>

  // Components in order, each recorded under its key if its answer is not empty.
  function Recorded(comps: seq<Component>, answer: nat -> seq<Id>, n: nat): ByComponent
    requires n <= |comps|
  {
    if n == 0 then map[]
    else
      var before := Recorded(comps, answer, n - 1);
      if answer(n - 1) == [] then before else before[comps[n - 1].Key() := answer(n - 1)]
  }

  lemma RecordedStep(comps: seq<Component>, answer: nat -> seq<Id>, n: nat)
    requires n < |comps|
    ensures var before := Recorded(comps, answer, n);
            Recorded(comps, answer, n + 1) == if answer(n) == [] then before else before[comps[n].Key() := answer(n)]
  {
  }

  lemma {:induction false} RecordedNothing(comps: seq<Component>, answer: nat -> seq<Id>, n: nat, end: nat)
    requires n <= end <= |comps| && forall i :: n <= i < end ==> answer(i) == []
    ensures Recorded(comps, answer, end) == Recorded(comps, answer, n)
    decreases end
  {
    if n < end {
      RecordedNothing(comps, answer, n, end - 1);
    }
  }

  function Answers(replies: nat -> Reply): nat -> seq<Id> { (i: nat) => AnswerTo(replies, i) }

  predicate Answered(replies: nat -> Reply, i: nat) { replies(i / 100).Results? }

  // How many of the first n components were asked about successfully.
  function Reached(replies: nat -> Reply, n: nat): nat {
    if n == 0 then 0 else Reached(replies, n - 1) + if Answered(replies, n - 1) then 1 else 0
  }

  function Paired(reply: Reply, j: nat): seq<Id> {
    if reply.Results? && j < |reply.ids| then Clean(reply.ids[j]) else []
  }

  lemma InChunk(chunk: nat, i: nat)
    requires 100 * chunk <= i < 100 * (chunk + 1)
    ensures i / 100 == chunk && i % 100 == i - 100 * chunk
  {
  }

  lemma {:induction false} ReachedChunk(replies: nat -> Reply, chunk: nat, start: nat, end: nat)
    requires start == 100 * chunk && start <= end <= start + 100
    ensures forall i :: start <= i < end ==> Answers(replies)(i) == Paired(replies(chunk), i - start)
    ensures Reached(replies, end) == Reached(replies, start) + if replies(chunk).Results? then end - start else 0
    decreases end
  {
    if start < end {
      ReachedChunk(replies, chunk, start, end - 1);
      InChunk(chunk, end - 1);
    }
  }

  lemma {:induction false} ReachedAll(replies: nat -> Reply, n: nat)
    ensures Reached(replies, n) <= n
    ensures Reached(replies, n) == n <==> forall i :: 0 <= i < n ==> Answered(replies, i)
  {
    if n > 0 {
      ReachedAll(replies, n - 1);
    }
  }

  method OsvQuery(comps: seq<Component>, replies: nat -> Reply)
    returns (byComponent: ByComponent, ok: bool, queried: nat)
    ensures byComponent == Recorded(comps, Answers(replies), |comps|)
    ensures ok <==> forall i :: 0 <= i < |comps| ==> Answered(replies, i)
    ensures queried == Reached(replies, |comps|)
  {
    byComponent, ok, queried := map[], true, 0;
    var start: nat, chunkNo: nat := 0, 0;
    while start < |comps|
      invariant start <= |comps| && (start == 100 * chunkNo || start == |comps|)
      invariant byComponent == Recorded(comps, Answers(replies), start)
      invariant queried == Reached(replies, start) <= start
      invariant ok <==> queried == start
    {
      var end := if start + 100 <= |comps| then start + 100 else |comps|;
      var asked;
      byComponent, asked := AskChunk(byComponent, comps, replies, chunkNo, start, end);
      if asked == 0 {
        ok := false;
      }
      queried := queried + asked;
      start, chunkNo := end, chunkNo + 1;
    }
    ReachedAll(replies, |comps|);
  }

  // One request; a failed one is skipped.
  method AskChunk(m: ByComponent, comps: seq<Component>, replies: nat -> Reply, chunkNo: nat, start: nat, end: nat)
    returns (r: ByComponent, asked: nat)
    requires start == 100 * chunkNo && start < end <= start + 100 && end <= |comps|
    requires m == Recorded(comps, Answers(replies), start)
    ensures r == Recorded(comps, Answers(replies), end)
    ensures asked == if replies(chunkNo).Results? then end - start else 0
    ensures Reached(replies, end) == Reached(replies, start) + asked
  {
    ReachedChunk(replies, chunkNo, start, end);
    r := TakeReply(m, comps, replies(chunkNo), Answers(replies), start, end);
    asked := if replies(chunkNo).Failed? then 0 else end - start;
  }

  method TakeReply(m: ByComponent, comps: seq<Component>, reply: Reply, ghost answer: nat -> seq<Id>, start: nat,
      end: nat)
    returns (r: ByComponent)
    requires start <= end <= |comps|
    requires forall i :: start <= i < end ==> answer(i) == Paired(reply, i - start)
    requires m == Recorded(comps, answer, start)
    ensures r == Recorded(comps, answer, end)
  {
    if reply.Failed? {
      RecordedNothing(comps, answer, start, end);
      return m;
    }
    r := RecordChunk(m, comps, reply.ids, answer, start, end);
  }

  // From `start` on, the answers are the results in order, and then nothing.
  ghost predicate Pairs(answer: nat -> seq<Id>, results: seq<seq<Id>>, start: nat, end: nat) {
    forall i :: start <= i < end ==> answer(i) == Paired(Results(results), i - start)
  }

  lemma NextRecorded(m: ByComponent, comps: seq<Component>, answer: nat -> seq<Id>, results: seq<seq<Id>>, start: nat,
                     end: nat, i: nat)
    requires Pairs(answer, results, start, end) && start <= i < end <= |comps| && i - start < |results|
    requires m == Recorded(comps, answer, i)
    ensures var ids := Clean(results[i - start]);
            Recorded(comps, answer, i + 1) == if ids == [] then m else m[comps[i].Key() := ids]
  {
    RecordedStep(comps, answer, i);
  }

  lemma NoMoreRecorded(comps: seq<Component>, answer: nat -> seq<Id>, results: seq<seq<Id>>, start: nat, stop: nat,
                       end: nat)
    requires Pairs(answer, results, start, end) && start <= stop <= end <= |comps|
    requires stop == end || stop - start == |results|
    ensures Recorded(comps, answer, end) == Recorded(comps, answer, stop)
  {
    RecordedNothing(comps, answer, stop, end);
  }

  method RecordNext(m: ByComponent, comps: seq<Component>, results: seq<seq<Id>>, ghost answer: nat -> seq<Id>,
      start: nat, ghost end: nat, i: nat)
    returns (r: ByComponent)
    requires Pairs(answer, results, start, end) && start <= i < end <= |comps| && i - start < |results|
    requires m == Recorded(comps, answer, i)
    ensures r == Recorded(comps, answer, i + 1)
  {
    NextRecorded(m, comps, answer, results, start, end, i);
    var ids := Clean(results[i - start]);
    r := m;
    if ids != [] {
      r := r[comps[i].Key() := ids];
    }
  }

  // Pairing stops at the shorter of the chunk and its reply.
  method RecordChunk(m: ByComponent, comps: seq<Component>, results: seq<seq<Id>>, ghost answer: nat -> seq<Id>,
      start: nat, end: nat)
    returns (r: ByComponent)
    requires start <= end <= |comps| && Pairs(answer, results, start, end)
    requires m == Recorded(comps, answer, start)
    ensures r == Recorded(comps, answer, end)
  {
    var stop := if end - start <= |results| then end else start + |results|;
    r := m;
    for i := start to stop
      invariant r == Recorded(comps, answer, i)
    {
      r := RecordNext(r, comps, results, answer, start, end, i);
    }
    NoMoreRecorded(comps, answer, results, start, stop, end);
  }

  // What one unlimited request would record, of a source that answers each
  // component on its own merits.
  function AskedWhole(comps: seq<Component>, source: Component -> seq<Id>): ByComponent {
    Recorded(comps, (i: nat) => if i < |comps| then Clean(source(comps[i])) else [], |comps|)
  }

  lemma {:induction false} RecordedAgrees(comps: seq<Component>, a: nat -> seq<Id>, b: nat -> seq<Id>, n: nat)
    requires n <= |comps| && forall i :: 0 <= i < n ==> a(i) == b(i)
    ensures Recorded(comps, a, n) == Recorded(comps, b, n)
  {
    if n > 0 {
      RecordedAgrees(comps, a, b, n - 1);
    }
  }

  // Chunking is invisible: when every chunk is answered with one result per
  // query, the batches record what one request would.
  lemma ChunkingIsInvisible(comps: seq<Component>, replies: nat -> Reply, source: Component -> seq<Id>)
    requires forall i :: 0 <= i < |comps| ==>
               Answered(replies, i) && i % 100 < |replies(i / 100).ids|
                 && replies(i / 100).ids[i % 100] == source(comps[i])
    ensures Recorded(comps, Answers(replies), |comps|) == AskedWhole(comps, source)
  {
    var whole := (i: nat) => if i < |comps| then Clean(source(comps[i])) else [];
    forall i | 0 <= i < |comps| ensures Answers(replies)(i) == whole(i) {
      assert Answered(replies, i);
    }
    RecordedAgrees(comps, Answers(replies), whole, |comps|);
  }

  // The record of the first n components as a lookup: each is there exactly when
  // something was listed for it, with just that list.
  ghost predicate LooksUp(m: ByComponent, comps: seq<Component>, answer: nat -> seq<Id>, n: nat)
    requires n <= |comps|
  {
    && (forall i :: 0 <= i < n ==> (comps[i].Key() in m <==> answer(i) != []))
    && (forall i :: 0 <= i < n && answer(i) != [] ==> m[comps[i].Key()] == answer(i))
    && m.Keys <= FirstKeys(comps, n)
  }

  function FirstKeys(comps: seq<Component>, n: nat): set<ComponentKey>
    requires n <= |comps|
  {
    if n == 0 then {} else FirstKeys(comps, n - 1) + {comps[n - 1].Key()}
  }

  lemma {:induction false} NotAFirstKey(comps: seq<Component>, n: nat, k: ComponentKey)
    requires n <= |comps| && forall i :: 0 <= i < n ==> comps[i].Key() != k
    ensures k !in FirstKeys(comps, n)
  {
    if n > 0 {
      NotAFirstKey(comps, n - 1, k);
    }
  }

  lemma LooksUpStep(comps: seq<Component>, answer: nat -> seq<Id>, m: ByComponent, next: ByComponent, n: nat)
    requires DistinctBy(comps, KeyOfComponent()) && n < |comps| && LooksUp(m, comps, answer, n)
    requires next == if answer(n) == [] then m else m[comps[n].Key() := answer(n)]
    ensures LooksUp(next, comps, answer, n + 1)
  {
    forall i | 0 <= i < n ensures comps[i].Key() != comps[n].Key() {
      assert KeyOfComponent()(comps[i]) != KeyOfComponent()(comps[n]);
    }
    NotAFirstKey(comps, n, comps[n].Key());
  }

  lemma LooksUpNext(comps: seq<Component>, answer: nat -> seq<Id>, n: nat)
    requires DistinctBy(comps, KeyOfComponent()) && n < |comps|
    requires LooksUp(Recorded(comps, answer, n), comps, answer, n)
    ensures LooksUp(Recorded(comps, answer, n + 1), comps, answer, n + 1)
  {
    RecordedStep(comps, answer, n);
    LooksUpStep(comps, answer, Recorded(comps, answer, n), Recorded(comps, answer, n + 1), n);
  }

  // Over distinct components the record is a lookup.
  lemma RecordedIsLookup(comps: seq<Component>, answer: nat -> seq<Id>, n: nat)
    requires DistinctBy(comps, KeyOfComponent()) && n <= |comps|
    ensures LooksUp(Recorded(comps, answer, n), comps, answer, n)
  {
    for i := 0 to n
      invariant LooksUp(Recorded(comps, answer, i), comps, answer, i)
    {
      LooksUpNext(comps, answer, i);
    }
  }

  lemma PutSize<V>(m: map<Id, V>, id: Id, v: V)
    ensures m[id := v].Keys == m.Keys + {id} && |m[id := v]| <= |m| + 1
  {
    assert |m[id := v].Keys| == |m[id := v]| && |m.Keys| == |m|;
  }

  // ---- the advisory cache ----

  type Record = string

  class AdvisoryCache {
    const cap: nat
    var entries: map<Id, Record>
    var fetched: map<Id, int>
    ghost var served: set<(Id, Record, int)>

    // The two maps agree on their keys, stay within the cap, and hold only what
    // the feed served for that id at that time.
    ghost predicate Valid()
      reads this
    {
      && cap >= 100
      && entries.Keys == fetched.Keys && |entries| <= cap
      && forall id :: id in entries ==> (id, entries[id], fetched[id]) in served
    }

    constructor (configured: int)
      ensures Valid() && entries == map[] && served == {}
      ensures cap == if configured < 100 then 100 else configured
    {
      cap := if configured < 100 then 100 else configured;
      entries, fetched, served := map[], map[], {};
    }

    function Hit(id: Id, ttl: int, now: int): Option<Record>
      requires Valid()
      reads this
    {
      if id !in fetched || now - fetched[id] >= ttl then None else Some(entries[id])
    }

    // Oldest first: whatever goes is no younger than anything kept.
    method Evict(quota: nat)
      requires entries.Keys == fetched.Keys && quota <= |entries|
      modifies this
      ensures entries.Keys == fetched.Keys && |entries| == |old(entries)| - quota && served == old(served)
      ensures forall k :: k in entries ==>
                k in old(entries) && entries[k] == old(entries)[k] && fetched[k] == old(fetched)[k]
      ensures forall k, kept :: k in old(entries) && k !in entries && kept in entries ==>
              old(fetched)[k] <= old(fetched)[kept]
    {
      for i := 0 to quota
        invariant entries.Keys == fetched.Keys && |entries| == |old(entries)| - i && served == old(served)
        invariant forall k :: k in entries ==>
                  k in old(entries) && entries[k] == old(entries)[k] && fetched[k] == old(fetched)[k]
        invariant forall k, kept :: k in old(entries) && k !in entries && kept in entries ==>
                  old(fetched)[k] <= old(fetched)[kept]
      {
        var oldest := Oldest();
        entries, fetched := entries - {oldest}, fetched - {oldest};
      }
    }

    // A full cache gives up a tenth of its records, and at least one.
    method MakeRoom()
      requires Valid()
      modifies this
      ensures Valid() && |entries| < cap && served == old(served)
      ensures |old(entries)| == cap ==> |entries| == cap - if cap >= 20 then cap / 10 else 1
      ensures |old(entries)| < cap ==> entries == old(entries) && fetched == old(fetched)
      ensures forall k :: k in entries ==>
                k in old(entries) && entries[k] == old(entries)[k] && fetched[k] == old(fetched)[k]
      ensures forall k, kept :: k in old(entries) && k !in entries && kept in entries ==>
              old(fetched)[k] <= old(fetched)[kept]
    {
      if |entries| >= cap {
        Evict(if cap / 10 >= 1 then cap / 10 else 1);
      }
    }

    method Put(id: Id, record: Record, now: int)
      requires Valid()
      modifies this
      ensures Valid() && served == old(served) + {(id, record, now)}
      ensures id in entries && entries[id] == record && fetched[id] == now
      ensures forall k :: k in entries && k != id ==>
              k in old(entries) && entries[k] == old(entries)[k] && fetched[k] == old(fetched)[k]
      ensures |old(entries)| < cap ==> entries.Keys == old(entries).Keys + {id}
      ensures forall k, kept :: k in old(entries) && k !in entries && kept in entries && kept != id ==>
              old(fetched)[k] <= old(fetched)[kept]
    {
      MakeRoom();
      Store(id, record, now);
    }

    method Store(id: Id, record: Record, now: int)
      requires Valid() && |entries| < cap
      modifies this
      ensures Valid() && served == old(served) + {(id, record, now)}
      ensures entries == old(entries)[id := record] && fetched == old(fetched)[id := now]
    {
      PutSize(entries, id, record);
      PutSize(fetched, id, now);
      entries, fetched := entries[id := record], fetched[id := now];
      served := served + {(id, record, now)};
    }

    method Oldest() returns (id: Id)
      requires entries.Keys == fetched.Keys && |entries| > 0
      ensures id in entries && forall k :: k in fetched ==> fetched[id] <= fetched[k]
    {
      assert |entries.Keys| > 0;
      id :| id in fetched;
      var rest := fetched.Keys - {id};
      while rest != {}
        invariant id in fetched && rest <= fetched.Keys
        invariant forall k :: k in fetched && k !in rest ==> fetched[id] <= fetched[k]
        decreases |rest|
      {
        var k :| k in rest;
        if fetched[k] < fetched[id] {
          id := k;
        }
        rest := rest - {k};
      }
    }

    // `osv_advisory`: a failed fetch is never cached, and a cached record was
    // served for this id less than the time to live ago.
    method Lookup(id: Id, ttl: nat, now: int, fetch: Option<Record>) returns (r: Option<Record>)
      requires Valid()
      modifies this
      ensures Valid()
      ensures ttl > 0 && old(Hit(id, ttl, now)).Some? ==>
              r == old(Hit(id, ttl, now)) && entries == old(entries) && fetched == old(fetched)
      ensures ttl == 0 || old(Hit(id, ttl, now)).None? ==> r == fetch
      ensures (ttl == 0 || fetch.None?) ==> entries == old(entries) && fetched == old(fetched) && served == old(served)
      ensures r.Some? ==> r == fetch || exists at :: (id, r.value, at) in old(served) && now - at < ttl
    {
      if ttl > 0 {
        r := Hit(id, ttl, now);
        if r.Some? {
          assert (id, r.value, fetched[id]) in served;
          return;
        }
      }
      r := fetch;
      if r.Some? && ttl > 0 {
        Put(id, r.value, now);
      }
    }
  }

  // ---- catalogues that survive an outage ----

  // A fetch that answered, and when.
  datatype Fetch = Fetch(entries: set<Id>, at: int)

  // The KEV catalogue in memory: a refresh that fails keeps what it had.
  class KevCache {
    var entries: set<Id>
    var fetchedAt: int
    var ok: bool
    ghost var fetches: seq<Fetch>

    // Whatever it holds is what the latest fetch to answer brought, and it says
    // so exactly when one ever did.
    ghost predicate Valid()
      reads this
    {
      && (ok <==> fetches != [])
      && (ok ==> fetches[|fetches| - 1] == Fetch(entries, fetchedAt))
    }

    constructor ()
      ensures Valid() && fetches == []
    {
      entries, fetchedAt, ok, fetches := {}, 0, false, [];
    }

    // The feed is asked unless an answer younger than the time to live is in
    // hand, and only its answers are ever recorded.
    method Catalogue(force: bool, ttl: int, now: int, feed: Option<set<Id>>) returns (asked: bool)
      requires Valid()
      modifies this
      ensures Valid() && (old(ok) ==> ok)
      ensures asked <==> force || old(fetches) == [] || now - old(fetches)[|old(fetches)| - 1].at >= ttl
      ensures fetches == if asked && feed.Some? then old(fetches) + [Fetch(feed.value, now)] else old(fetches)
      ensures entries == if fetches == old(fetches) then old(entries) else feed.value
    {
      if !force && ok && now - fetchedAt < ttl {
        return false;
      }
      asked := true;
      if feed.None? {
        return;
      }
      entries, fetchedAt, ok := feed.value, now, true;
      fetches := fetches + [Fetch(entries, now)];
    }
  }

  // ---- the score file ----

  // A line is skipped (comment, header), or names a CVE, with no score when its
  // numbers do not parse.
  datatype Line = Skipped | Scored(cve: Id, score: Option<Score>)

  type Scores = map<Id, Score>

  function Filtered(lines: seq<Line>, wanted: set<Id>): Scores {
    if lines == [] then map[]
    else
      var before := Filtered(lines[..|lines| - 1], wanted);
      var last := lines[|lines| - 1];
      if last.Scored? && last.cve in wanted && last.score.Some? then before[last.cve := last.score.value] else before
  }

  lemma {:induction false} FilteredKeys(lines: seq<Line>, wanted: set<Id>)
    ensures Filtered(lines, wanted).Keys <= wanted
    ensures forall k :: k in Filtered(lines, wanted) ==>
            exists i :: 0 <= i < |lines| && lines[i].Scored? && lines[i].cve == k
  {
    if lines != [] {
      FilteredKeys(lines[..|lines| - 1], wanted);
      assert forall i :: 0 <= i < |lines| - 1 ==> lines[..|lines| - 1][i] == lines[i];
    }
  }

  ghost predicate UniqueCves(lines: seq<Line>) {
    forall i, j :: 0 <= i < j < |lines| && lines[i].Scored? && lines[j].Scored? ==> lines[i].cve != lines[j].cve
  }

  predicate AllIn(lines: seq<Line>, n: nat, wanted: set<Id>)
    requires n <= |lines|
  {
    |Filtered(lines[..n], wanted)| == |wanted|
  }

  // Reading stops at the first line with every wanted score found, or when the
  // stream ends or breaks after `readable` lines.
  ghost predicate StopsAt(lines: seq<Line>, readable: nat, wanted: set<Id>, used: nat) {
    && used <= readable <= |lines|
    && (used == readable || AllIn(lines, used, wanted))
    && forall u :: 0 <= u < used ==> !AllIn(lines, u, wanted)
  }

  function StopFrom(lines: seq<Line>, n: nat, readable: nat, wanted: set<Id>): (stop: nat)
    requires n <= readable <= |lines|
    ensures n <= stop <= readable
    decreases readable - n
  {
    if n == readable || AllIn(lines, n, wanted) then n else StopFrom(lines, n + 1, readable, wanted)
  }

  // The line at which reading stops, from the file and what is wanted alone.
  function StopLine(lines: seq<Line>, readable: nat, wanted: set<Id>): (stop: nat)
    requires readable <= |lines|
    ensures stop <= readable
  {
    StopFrom(lines, 0, readable, wanted)
  }

  lemma {:induction false} StopFromIsFirst(lines: seq<Line>, n: nat, readable: nat, wanted: set<Id>)
    requires n <= readable <= |lines| && forall u :: 0 <= u < n ==> !AllIn(lines, u, wanted)
    ensures StopsAt(lines, readable, wanted, StopFrom(lines, n, readable, wanted))
    decreases readable - n
  {
    if n < readable && !AllIn(lines, n, wanted) {
      StopFromIsFirst(lines, n + 1, readable, wanted);
    }
  }

  // There is one such line.
  lemma StopsOnce(lines: seq<Line>, readable: nat, wanted: set<Id>, used: nat)
    requires readable <= |lines|
    ensures StopsAt(lines, readable, wanted, used) <==> used == StopLine(lines, readable, wanted)
  {
    StopFromIsFirst(lines, 0, readable, wanted);
  }

  method ReadScores(lines: seq<Line>, readable: nat, wanted: set<Id>) returns (out: Scores, ghost used: nat)
    requires readable <= |lines| && wanted != {}
    ensures StopsAt(lines, readable, wanted, used) && out == Filtered(lines[..used], wanted)
  {
    out := map[];
    var n := 0;
    while n < readable
      invariant n <= readable && out == Filtered(lines[..n], wanted)
      invariant forall u :: 0 <= u <= n ==> !AllIn(lines, u, wanted)
    {
      var line := lines[n];
      assert lines[..n + 1][..n] == lines[..n] && !AllIn(lines, n, wanted);
      n := n + 1;
      if line.Skipped? || line.cve !in wanted || line.score.None? {
        assert Filtered(lines[..n], wanted) == out;
        continue;
      }
      out := out[line.cve := line.score.value];
      assert Filtered(lines[..n], wanted) == out;
      if |out| == |wanted| {
        break;
      }
    }
    used := n;
  }

  method EpssScores(lines: seq<Line>, readable: nat, wanted: set<Id>) returns (out: Scores)
    requires readable <= |lines|
    ensures out == Filtered(lines[..StopLine(lines, readable, wanted)], wanted)
    ensures out == Filtered(lines[..readable], wanted) <==> KeepsLast(lines, readable, wanted)
  {
    ghost var used := 0;
    out := map[];
    if wanted != {} {
      out, used := ReadScores(lines, readable, wanted);
    }
    StopsOnce(lines, readable, wanted, used);
    EarlyExitExactly(lines, readable, wanted);
  }

  // ---- what stopping early can lose ----

  // The last score the lines give a CVE.
  function LastScore(lines: seq<Line>, cve: Id): Option<Score> {
    if lines == [] then None
    else
      var last := lines[|lines| - 1];
      if last.Scored? && last.cve == cve && last.score.Some? then last.score else LastScore(lines[..|lines| - 1], cve)
  }

  lemma {:induction false} FilteredIsLast(lines: seq<Line>, wanted: set<Id>, cve: Id)
    ensures cve in Filtered(lines, wanted) <==> cve in wanted && LastScore(lines, cve).Some?
    ensures cve in Filtered(lines, wanted) ==> LastScore(lines, cve) == Some(Filtered(lines, wanted)[cve])
  {
    if lines != [] {
      FilteredIsLast(lines[..|lines| - 1], wanted, cve);
    }
  }

  lemma {:induction false} LastOfConcat(a: seq<Line>, b: seq<Line>, cve: Id)
    ensures LastScore(a + b, cve) == if LastScore(b, cve).Some? then LastScore(b, cve) else LastScore(a, cve)
  {
    if b == [] {
      assert a + b == a;
    } else {
      assert (a + b)[..|a + b| - 1] == a + b[..|b| - 1];
      LastOfConcat(a, b[..|b| - 1], cve);
    }
  }

  // No line after this one gives a wanted CVE a score other than the last before.
  ghost predicate SaysNoMore(lines: seq<Line>, used: nat, readable: nat, wanted: set<Id>)
    requires used <= readable <= |lines|
  {
    forall cve :: cve in wanted && LastScore(lines[used..readable], cve).Some? ==>
      LastScore(lines[used..readable], cve) == LastScore(lines[..used], cve)
  }

  // No line after the one that completes the wanted scores changes any of them.
  ghost predicate KeepsLast(lines: seq<Line>, readable: nat, wanted: set<Id>)
    requires readable <= |lines|
  {
    SaysNoMore(lines, StopLine(lines, readable, wanted), readable, wanted)
  }

  lemma StoppingExactly(lines: seq<Line>, readable: nat, wanted: set<Id>, used: nat)
    requires used <= readable <= |lines|
    ensures Filtered(lines[..used], wanted) == Filtered(lines[..readable], wanted)
            <==> SaysNoMore(lines, used, readable, wanted)
  {
    var kept, full := Filtered(lines[..used], wanted), Filtered(lines[..readable], wanted);
    assert lines[..readable] == lines[..used] + lines[used..readable];
    forall cve
      ensures cve in kept <==> cve in wanted && LastScore(lines[..used], cve).Some?
      ensures cve in full <==> cve in wanted && LastScore(lines[..readable], cve).Some?
      ensures cve in kept ==> LastScore(lines[..used], cve) == Some(kept[cve])
      ensures cve in full ==> LastScore(lines[..readable], cve) == Some(full[cve])
      ensures LastScore(lines[..readable], cve)
              == if LastScore(lines[used..readable], cve).Some? then LastScore(lines[used..readable], cve)
                 else LastScore(lines[..used], cve)
    {
      FilteredIsLast(lines[..used], wanted, cve);
      FilteredIsLast(lines[..readable], wanted, cve);
      LastOfConcat(lines[..used], lines[used..readable], cve);
    }
    if SaysNoMore(lines, used, readable, wanted) {
      assert kept.Keys == full.Keys;
    } else {
      var cve :| cve in wanted && LastScore(lines[used..readable], cve).Some?
                 && LastScore(lines[used..readable], cve) != LastScore(lines[..used], cve);
      assert cve in full;
    }
  }

  // Stopping early equals a full filter exactly when no later line says
  // otherwise about a wanted CVE.
  lemma EarlyExitExactly(lines: seq<Line>, readable: nat, wanted: set<Id>)
    requires readable <= |lines|
    ensures Filtered(lines[..StopLine(lines, readable, wanted)], wanted) == Filtered(lines[..readable], wanted)
            <==> KeepsLast(lines, readable, wanted)
  {
    StoppingExactly(lines, readable, wanted, StopLine(lines, readable, wanted));
  }

  lemma SubsetOfSameSize<T>(a: set<T>, b: set<T>)
    requires a <= b && |a| == |b|
    ensures a == b
  {
    assert |b - a| == 0 by { assert b == a + (b - a); }
  }

  // Stopping once every wanted CVE is found loses nothing, in a file that lists
  // each CVE once.
  lemma {:induction false} EarlyExitLosesNothing(lines: seq<Line>, wanted: set<Id>, used: nat)
    requires UniqueCves(lines) && used <= |lines| && |Filtered(lines[..used], wanted)| == |wanted|
    ensures Filtered(lines, wanted) == Filtered(lines[..used], wanted)
    decreases |lines|
  {
    if used == |lines| {
      assert lines[..used] == lines;
    } else {
      var n := |lines| - 1;
      assert lines[..n][..used] == lines[..used];
      EarlyExitLosesNothing(lines[..n], wanted, used);
      NoneLeft(lines, wanted, used, n);
    }
  }

  lemma NoneLeft(lines: seq<Line>, wanted: set<Id>, used: nat, n: nat)
    requires UniqueCves(lines) && used <= n < |lines| && |Filtered(lines[..used], wanted)| == |wanted|
    ensures lines[n].Scored? ==> lines[n].cve !in wanted
  {
    FilteredKeys(lines[..used], wanted);
    AllFound(lines, wanted, used, n, Filtered(lines[..used], wanted));
  }

  // With everything found, a later line names no wanted CVE.
  lemma AllFound(lines: seq<Line>, wanted: set<Id>, used: nat, n: nat, found: Scores)
    requires UniqueCves(lines) && used <= n < |lines| && found.Keys <= wanted && |found| == |wanted|
    requires forall k :: k in found ==> exists i ::
             0 <= i < |lines[..used]| && lines[..used][i].Scored? && lines[..used][i].cve == k
    ensures lines[n].Scored? ==> lines[n].cve !in wanted
  {
    assert |found.Keys| == |found|;
    SubsetOfSameSize(found.Keys, wanted);
    if lines[n].Scored? {
      forall k | k in found.Keys ensures k != lines[n].cve {
        var i :| 0 <= i < used && lines[..used][i].Scored? && lines[..used][i].cve == k;
        assert lines[..used][i] == lines[i];
      }
    }
  }

  // In a file that scores a CVE twice, reading for it stops after the first line
  // and so keeps the first score, where a full read would keep the last.
  lemma RepeatedCveDiffers(cve: Id, a: Score, b: Score)
    requires a != b
    ensures var lines := [Scored(cve, Some(a)), Scored(cve, Some(b))];
            && StopLine(lines, 2, {cve}) == 1 && !KeepsLast(lines, 2, {cve})
            && Filtered(lines[..1], {cve})[cve] == a && Filtered(lines, {cve})[cve] == b
  {
    var lines := [Scored(cve, Some(a)), Scored(cve, Some(b))];
    assert lines[..1][..0] == [] && lines[..1] == [Scored(cve, Some(a))] && lines[..0] == [] && lines[..2] == lines;
    assert Filtered(lines[..1], {cve}) == map[cve := a];
    assert AllIn(lines, 1, {cve}) && !AllIn(lines, 0, {cve});
    StopsOnce(lines, 2, {cve}, 1);
    EarlyExitExactly(lines, 2, {cve});
  }
}
