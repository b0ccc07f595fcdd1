// The one-time authorization-code store (src/cra/server/oauth.py): sections
// 4.1.2 and 4.1.3 of RFC 6749, and section 4.6 of RFC 7636 for the S256 check.
module OAuth {
  import opened Ordering

  const CODE_TTL := 300_000_000
  const MAX_CODES := 100_000

  datatype Grant = Grant(accessToken: string, challenge: string, redirectUri: string, createdAt: int)

  datatype Entry = Entry(code: string, grant: Grant)

  // A dict: distinct codes, in insertion order.
  type Codes = seq<Entry>

  function CodeOf(): Entry -> string { (e: Entry) => e.code }

  predicate Has(codes: Codes, code: string) { exists e :: e in codes && e.code == code }

  function Find(codes: Codes, code: string): (r: Option<Grant>)
    ensures r.Some? <==> Has(codes, code)
    ensures r.Some? ==> Entry(code, r.value) in codes
  {
    if codes == [] then None
    else if codes[|codes| - 1].code == code then Some(codes[|codes| - 1].grant)
    else
      var before := codes[..|codes| - 1];
      assert codes == before + [codes[|codes| - 1]];
      Find(before, code)
  }

  function Popped(codes: Codes, code: string): Codes { Filter(codes, (e: Entry) => e.code != code) }

  // Assignment to a key keeps its place if it has one.
  function Put(codes: Codes, e: Entry): Codes {
    if Has(codes, e.code) then Map(codes, (x: Entry) => if x.code == e.code then e else x) else codes + [e]
  }

  // ---- collection ----

  predicate Expired(e: Entry, now: int) { e.grant.createdAt + CODE_TTL < now }

  function Live(codes: Codes, now: int): Codes { Filter(codes, (e: Entry) => !Expired(e, now)) }

  function OlderFirst(): (Entry, Entry) -> bool { (a: Entry, b: Entry) => a.grant.createdAt <= b.grant.createdAt }

  function Doomed(live: Codes): Codes {
    if |live| < MAX_CODES then []
    else
      SortKeepsItems(live, OlderFirst());
      SortBy(live, OlderFirst())[..|live| - MAX_CODES + 1]
  }

  function Spared(live: Codes, doomed: Codes): Codes { Filter(live, (e: Entry) => !Has(doomed, e.code)) }

  function Collected(codes: Codes, now: int): Codes { Spared(Live(codes, now), Doomed(Live(codes, now))) }

  datatype Response =
    | UnsupportedGrantType
    | UnknownOrExpired
    | RedirectMismatch
    | PkceFailed
    | Raised
    | Token(accessToken: string)

  predicate Ascii(s: string) { forall c :: c in s ==> c as int < 128 }

  // Encoding or comparing a non-ASCII string raises instead of answering.
  datatype PkceResult = Verdict(ok: bool) | Exception

  function VerifyPkce(s256: string -> string, verifier: string, challenge: string): PkceResult {
    if verifier == "" || challenge == "" then Verdict(false)
    else if !Ascii(verifier) || !Ascii(challenge) then Exception
    else Verdict(s256(verifier) == challenge)
  }

  function Redeem(s256: string -> string, g: Option<Grant>, verifier: string, redirectUri: string): Response {
    if g.None? then UnknownOrExpired
    else if g.value.redirectUri != redirectUri then RedirectMismatch
    else
      match VerifyPkce(s256, verifier, g.value.challenge)
      case Exception => Raised
      case Verdict(ok) => if ok then Token(g.value.accessToken) else PkceFailed
  }

  class Store {
    const s256: string -> string
    var codes: Codes

    constructor (s256: string -> string)
      ensures codes == [] && this.s256 == s256
    {
      this.s256 := s256;
      codes := [];
    }

    method Gc(now: int)
      modifies this
      ensures codes == Collected(old(codes), now)
    {
      var kept: Codes := [];
      for i := 0 to |codes|
        invariant codes == old(codes) && kept == Live(codes[..i], now)
      {
        assert codes[..i + 1][..i] == codes[..i];
        if !(codes[i].grant.createdAt + CODE_TTL < now) {
          kept := kept + [codes[i]];
        }
      }
      assert codes[..|codes|] == codes;
      codes := kept;
      if |codes| >= MAX_CODES {
        SortKeepsItems(codes, OlderFirst());
        Evict(SortBy(codes, OlderFirst())[..|codes| - MAX_CODES + 1]);
      } else {
        FilterAll(kept);
      }
    }

    method Evict(doomed: Codes)
      modifies this
      ensures codes == Spared(old(codes), doomed)
    {
      FilterAll(codes);
      assert doomed[..0] == [];
      for i := 0 to |doomed|
        invariant codes == Spared(old(codes), doomed[..i])
      {
        assert doomed[..i + 1] == doomed[..i] + [doomed[i]];
        PopOneMore(old(codes), doomed[..i], doomed[i]);
        codes := Popped(codes, doomed[i].code);
      }
      assert doomed[..|doomed|] == doomed;
    }

    // The code-issuing tail of the authorize endpoint.
    method Issue(code: string, accessToken: string, challenge: string, redirectUri: string, now: int)
      modifies this
      ensures codes == Issued(old(codes), code, Grant(accessToken, challenge, redirectUri, now))
    {
      Gc(now);
      codes := Put(codes, Entry(code, Grant(accessToken, challenge, redirectUri, now)));
    }

    method TokenEndpoint(grantType: string, code: string, verifier: string, redirectUri: string, now: int)
      returns (r: Response)
      modifies this
      ensures (codes, r) == Redeemed(s256, old(codes), Request(grantType, code, verifier, redirectUri), now)
    {
      if grantType != "authorization_code" {
        return UnsupportedGrantType;
      }
      Gc(now);
      var record := Find(codes, code);
      codes := Popped(codes, code);
      if record.None? {
        return UnknownOrExpired;
      }
      if record.value.redirectUri != redirectUri {
        return RedirectMismatch;
      }
      var pkce := VerifyPkce(s256, verifier, record.value.challenge);
      if pkce.Exception? {
        return Raised;
      }
      if !pkce.ok {
        return PkceFailed;
      }
      return Token(record.value.accessToken);
    }
  }

  lemma PopOneMore(kept: Codes, doomed: Codes, d: Entry)
    ensures Popped(Spared(kept, doomed), d.code) == Spared(kept, doomed + [d])
  {
    FilterTwice(kept, (e: Entry) => !Has(doomed, e.code), (e: Entry) => e.code != d.code,
      (e: Entry) => !Has(doomed + [d], e.code));
  }

  lemma {:induction false} FilterAll(s: Codes)
    ensures Spared(s, []) == s
  {
    if s != [] {
      FilterAll(s[..|s| - 1]);
    }
  }

  // ---- the store as a function of its requests ----

  datatype TokenRequest = Request(grantType: string, code: string, verifier: string, redirectUri: string)

  function Issued(codes: Codes, code: string, g: Grant): Codes { Put(Collected(codes, g.createdAt), Entry(code, g)) }

  function Redeemed(s256: string -> string, codes: Codes, r: TokenRequest, now: int): (Codes, Response) {
    if r.grantType != "authorization_code" then (codes, UnsupportedGrantType)
    else
      var live := Collected(codes, now);
      (Popped(live, r.code), Redeem(s256, Find(live, r.code), r.verifier, r.redirectUri))
  }

  lemma {:induction false} FindExactly(codes: Codes, code: string, g: Grant)
    requires DistinctCodes(codes)
    ensures Find(codes, code) == Some(g) <==> Entry(code, g) in codes
  {
    if Entry(code, g) in codes {
      CodesIdentify(codes, Entry(code, g), Entry(code, Find(codes, code).value));
    }
  }

  ghost predicate Plain(s: string) { forall i :: 0 <= i < |s| ==> 0 <= s[i] as int <= 127 }

  // What the token endpoint answers, read off the entry it finds: each refusal and
  // the token have their exact condition, and the code is gone after any of them.
  lemma AnswersExactly(s256: string -> string, codes: Codes, r: TokenRequest, now: int)
    ensures var (left, answer) := Redeemed(s256, codes, r, now);
            var kept := Collected(codes, now);
            var g := Find(kept, r.code);
            if r.grantType != "authorization_code" then left == codes && answer == UnsupportedGrantType
            else
              && (forall e :: e in left <==> e in kept && e.code != r.code)
              && (answer == UnknownOrExpired <==> g == None)
              && (answer == RedirectMismatch <==> g.Some? && g.value.redirectUri != r.redirectUri)
              && (g.Some? && g.value.redirectUri == r.redirectUri ==>
                    var c := g.value.challenge;
                    && (answer == PkceFailed <==>
                        || r.verifier == "" || c == "" || (Plain(r.verifier) && Plain(c) && s256(r.verifier) != c))
                    && (answer == Raised <==> r.verifier != "" && c != "" && !(Plain(r.verifier) && Plain(c)))
                    && (answer == Token(g.value.accessToken) <==>
                        r.verifier != "" && c != "" && Plain(r.verifier) && Plain(c) && s256(r.verifier) == c))
  {
    FilterMembers(Collected(codes, now), (e: Entry) => e.code != r.code);
    PlainIsAscii(r.verifier);
    if Find(Collected(codes, now), r.code).Some? {
      PlainIsAscii(Find(Collected(codes, now), r.code).value.challenge);
    }
  }

  lemma PlainIsAscii(s: string)
    ensures Ascii(s) <==> Plain(s)
  {
    forall i | Ascii(s) && 0 <= i < |s| ensures 0 <= s[i] as int <= 127 {
      assert s[i] in s;
    }
    if Plain(s) {
      forall c | c in s ensures c as int < 128 {
        var i :| 0 <= i < |s| && s[i] == c;
      }
    }
  }

  // The endpoint raises, instead of answering, exactly when a live code comes
  // with its redirect URI and a verifier and challenge that are both there but
  // not both ASCII; the code is spent all the same.
  lemma RaisesExactlyWhen(s256: string -> string, codes: Codes, r: TokenRequest, now: int)
    ensures var g := Find(Collected(codes, now), r.code);
            Redeemed(s256, codes, r, now).1 == Raised <==>
              && r.grantType == "authorization_code"
              && g.Some? && g.value.redirectUri == r.redirectUri
              && r.verifier != "" && g.value.challenge != ""
              && !(Ascii(r.verifier) && Ascii(g.value.challenge))
    ensures Redeemed(s256, codes, r, now).1 == Raised ==> !Has(Redeemed(s256, codes, r, now).0, r.code)
  {
    FilterMembers(Collected(codes, now), (e: Entry) => e.code != r.code);
  }

  // ---- collection evicts only the oldest ----

  ghost predicate DistinctCodes(codes: Codes) { DistinctBy(codes, CodeOf()) }

  // Removing a list's own items by key removes exactly that many.
  lemma {:induction false} RemoveDoomed(live: Codes, doomed: Codes)
    requires DistinctCodes(live) && DistinctCodes(doomed) && forall d :: d in doomed ==> d in live
    ensures |Spared(live, doomed)| == |live| - |doomed|
    decreases |doomed|
  {
    if doomed == [] {
      FilterAll(live);
    } else {
      var n := |doomed| - 1;
      var d := doomed[n];
      assert doomed == doomed[..n] + [d];
      DistinctConcat(doomed[..n], [d], CodeOf());
      RemoveDoomed(live, doomed[..n]);
      PopOneMore(live, doomed[..n], d);
      var rest := Spared(live, doomed[..n]);
      FilterMembers(live, (e: Entry) => !Has(doomed[..n], e.code));
      FilterDistinct(live, (e: Entry) => !Has(doomed[..n], e.code), CodeOf());
      forall x | x in doomed[..n] ensures x.code != d.code {
        assert d in [d] && CodeOf()(x) != CodeOf()(d);
      }
      PopLength(rest, d);
    }
  }

  lemma {:induction false} PopLength(codes: Codes, d: Entry)
    requires DistinctCodes(codes) && d in codes
    ensures |Popped(codes, d.code)| == |codes| - 1
  {
    var n := |codes| - 1;
    var last := codes[n];
    assert codes == codes[..n] + [last];
    DistinctConcat(codes[..n], [last], CodeOf());
    assert last in [last];
    if last == d {
      PopAbsent(codes[..n], d.code);
    } else {
      assert d in codes[..n] && CodeOf()(d) != CodeOf()(last);
      PopLength(codes[..n], d);
    }
  }

  lemma {:induction false} PopAbsent(codes: Codes, code: string)
    requires forall e :: e in codes ==> CodeOf()(e) != code
    ensures Popped(codes, code) == codes
  {
    if codes != [] {
      var n := |codes| - 1;
      assert codes == codes[..n] + [codes[n]] && CodeOf()(codes[n]) == codes[n].code;
      PopAbsent(codes[..n], code);
    }
  }

  lemma CodesIdentify(codes: Codes, x: Entry, y: Entry)
    requires DistinctCodes(codes) && x in codes && y in codes && x.code == y.code
    ensures x == y
  {
    assert CodeOf()(x) == CodeOf()(y);
  }

  lemma FrontIsOlder(sorted: Codes, n: nat, x: Entry, kept: Entry)
    requires Sorted(sorted, OlderFirst()) && n <= |sorted|
    requires x in sorted[..n] && kept in sorted && kept !in sorted[..n]
    ensures x.grant.createdAt <= kept.grant.createdAt
  {
    var i :| 0 <= i < n && sorted[i] == x;
    var j :| 0 <= j < |sorted| && sorted[j] == kept;
    assert forall k :: 0 <= k < n ==> sorted[k] in sorted[..n];
    assert OlderFirst()(sorted[i], sorted[j]);
  }

  lemma OldestAreOlder(live: Codes, n: nat, e: Entry, kept: Entry)
    requires DistinctCodes(live) && n <= |SortBy(live, OlderFirst())|
    requires e in live && Has(SortBy(live, OlderFirst())[..n], e.code)
    requires kept in live && !Has(SortBy(live, OlderFirst())[..n], kept.code)
    ensures e.grant.createdAt <= kept.grant.createdAt
  {
    var sorted := SortBy(live, OlderFirst());
    SortKeepsItems(live, OlderFirst());
    SortIsSorted(live, OlderFirst());
    var x :| x in sorted[..n] && x.code == e.code;
    CodesIdentify(live, x, e);
    FrontIsOlder(sorted, n, x, kept);
  }

  lemma DoomedCount(live: Codes)
    requires DistinctCodes(live)
    ensures var kept := Spared(live, Doomed(live));
            DistinctCodes(kept) && |kept| == if |live| < MAX_CODES then |live| else MAX_CODES - 1
  {
    FilterDistinct(live, (e: Entry) => !Has(Doomed(live), e.code), CodeOf());
    if |live| < MAX_CODES {
      FilterAll(live);
    } else {
      DoomedIsDistinct(live);
      RemoveDoomed(live, Doomed(live));
    }
  }

  lemma DoomedIsDistinct(live: Codes)
    requires DistinctCodes(live) && |live| >= MAX_CODES
    ensures DistinctCodes(Doomed(live)) && |Doomed(live)| == |live| - MAX_CODES + 1
    ensures forall d :: d in Doomed(live) ==> d in live
  {
    var sorted := SortBy(live, OlderFirst());
    var n := |live| - MAX_CODES + 1;
    SortKeepsItems(live, OlderFirst());
    SortKeepsDistinct(live, OlderFirst(), CodeOf());
    assert sorted == sorted[..n] + sorted[n..];
    DistinctConcat(sorted[..n], sorted[n..], CodeOf());
  }

  // Collection keeps every unexpired code unless the store is at its cap; then
  // it makes exactly one place, and what it evicts is no newer than what it keeps.
  lemma EvictsOldest(codes: Codes, now: int)
    requires DistinctCodes(codes)
    ensures var live, kept := Live(codes, now), Collected(codes, now);
            && DistinctCodes(kept)
            && (forall e :: e in live <==> e in codes && now <= e.grant.createdAt + 300_000_000)
            && (forall e :: e in kept ==> e in live)
            && (if |live| < 100_000 then kept == live else |kept| == 99_999)
            && (forall e, k :: e in live && e !in kept && k in kept ==> e.grant.createdAt <= k.grant.createdAt)
  {
    var live := Live(codes, now);
    FilterDistinct(codes, (e: Entry) => !Expired(e, now), CodeOf());
    FilterMembers(codes, (e: Entry) => !Expired(e, now));
    FilterMembers(live, (e: Entry) => !Has(Doomed(live), e.code));
    DoomedCount(live);
    if |live| < MAX_CODES {
      FilterAll(live);
    } else {
      SortKeepsItems(live, OlderFirst());
      forall e, k | e in live && Has(Doomed(live), e.code) && k in live && !Has(Doomed(live), k.code)
        ensures e.grant.createdAt <= k.grant.createdAt
      {
        OldestAreOlder(live, |live| - MAX_CODES + 1, e, k);
      }
    }
  }

  // ---- runs of the two endpoints ----

  datatype Step =
    | IssueStep(code: string, grant: Grant)
    | TokenStep(request: TokenRequest, now: int)

  function StepCodes(s256: string -> string, codes: Codes, e: Step): Codes {
    match e
    case IssueStep(code, g) => Issued(codes, code, g)
    case TokenStep(r, now) => Redeemed(s256, codes, r, now).0
  }

  function CodesAfter(s256: string -> string, run: seq<Step>, n: nat): Codes
    requires n <= |run|
  {
    if n == 0 then [] else StepCodes(s256, CodesAfter(s256, run, n - 1), run[n - 1])
  }

  lemma PutKeeps(codes: Codes, e: Entry)
    requires DistinctCodes(codes)
    ensures DistinctCodes(Put(codes, e))
    ensures |Put(codes, e)| <= |codes| + 1
    ensures forall x :: x in Put(codes, e) ==> x == e || (x in codes && x.code != e.code)
  {
    if Has(codes, e.code) {
      var after := Put(codes, e);
      forall i, j | 0 <= i < j < |codes| ensures CodeOf()(after[i]) != CodeOf()(after[j]) {
        assert CodeOf()(codes[i]) != CodeOf()(codes[j]);
      }
    } else {
      forall x | x in codes ensures CodeOf()(x) != CodeOf()(e) {
      }
      DistinctConcat(codes, [e], CodeOf());
    }
  }

  lemma RedeemKeepsBound(s256: string -> string, codes: Codes, r: TokenRequest, now: int)
    requires DistinctCodes(codes) && |codes| <= MAX_CODES
    ensures DistinctCodes(Redeemed(s256, codes, r, now).0) && |Redeemed(s256, codes, r, now).0| <= MAX_CODES
  {
    if r.grantType == "authorization_code" {
      EvictsOldest(codes, now);
      var kept := Collected(codes, now);
      FilterDistinct(kept, (e: Entry) => e.code != r.code, CodeOf());
      FilterLength(kept, (e: Entry) => e.code != r.code);
    }
  }

  // The store never exceeds its cap.
  lemma {:induction false} StoreIsBounded(s256: string -> string, run: seq<Step>, n: nat)
    requires n <= |run|
    ensures DistinctCodes(CodesAfter(s256, run, n)) && |CodesAfter(s256, run, n)| <= 100_000
  {
    if n > 0 {
      StoreIsBounded(s256, run, n - 1);
      var before := CodesAfter(s256, run, n - 1);
      match run[n - 1]
      case IssueStep(code, g) =>
        EvictsOldest(before, g.createdAt);
        PutKeeps(Collected(before, g.createdAt), Entry(code, g));
      case TokenStep(r, now) => RedeemKeepsBound(s256, before, r, now);
    }
  }

  predicate Attempts(e: Step, code: string) {
    e.TokenStep? && e.request.grantType == "authorization_code" && e.request.code == code
  }

  predicate Issues(e: Step, code: string) { e.IssueStep? && e.code == code }

  function ResponseAt(s256: string -> string, run: seq<Step>, i: nat): Response
    requires i < |run| && run[i].TokenStep?
  {
    Redeemed(s256, CodesAfter(s256, run, i), run[i].request, run[i].now).1
  }

  predicate Succeeds(s256: string -> string, run: seq<Step>, i: nat, code: string)
    requires i < |run|
  {
    Attempts(run[i], code) && ResponseAt(s256, run, i).Token?
  }

  // ---- what is stored ----

  // Both endpoints collect first: the authorize endpoint when it issues, the token
  // endpoint for the one grant it supports.
  predicate Collects(e: Step) { e.IssueStep? || e.request.grantType == "authorization_code" }

  function TimeOf(e: Step): int { if e.IssueStep? then e.grant.createdAt else e.now }

  // A collection takes the entry away: it is older than 300 seconds, or the store
  // is full and it is among the oldest that have to make one place.
  ghost predicate TakenAway(codes: Codes, now: int, e: Entry) {
    || e.grant.createdAt + 300_000_000 < now
    || (|Live(codes, now)| >= 100_000
        && var sorted := SortBy(Live(codes, now), OlderFirst());
           var doomed := |Live(codes, now)| - 99_999;
           doomed <= |sorted| && e in sorted[..doomed])
  }

  lemma CollectionExactly(codes: Codes, now: int, e: Entry)
    requires DistinctCodes(codes) && e in codes
    ensures e in Collected(codes, now) <==> !TakenAway(codes, now, e)
  {
    var live := Live(codes, now);
    FilterMembers(codes, (x: Entry) => !Expired(x, now));
    FilterMembers(live, (x: Entry) => !Has(Doomed(live), x.code));
    SortKeepsItems(live, OlderFirst());
    if e in live && |live| >= MAX_CODES && Has(Doomed(live), e.code) {
      var x :| x in Doomed(live) && x.code == e.code;
      assert x in SortBy(live, OlderFirst());
      CodesIdentify(codes, x, e);
    }
  }

  lemma PutExactly(codes: Codes, put: Entry, e: Entry)
    ensures e in Put(codes, put) <==> e == put || (e in codes && e.code != put.code)
  {
    if Has(codes, put.code) {
      MapMembers(codes, (x: Entry) => if x.code == put.code then put else x);
    }
  }

  // What one step leaves stored: what it issued, and what it neither replaced, nor
  // was asked for, nor collected.
  lemma StepExactly(s256: string -> string, codes: Codes, step: Step, e: Entry)
    requires DistinctCodes(codes)
    ensures e in StepCodes(s256, codes, step) <==>
            || step == IssueStep(e.code, e.grant)
            || (e in codes && !Issues(step, e.code) && !Attempts(step, e.code)
                && !(Collects(step) && TakenAway(codes, TimeOf(step), e)))
  {
    EvictsOldest(codes, TimeOf(step));
    if e in codes {
      CollectionExactly(codes, TimeOf(step), e);
    }
    match step
    case IssueStep(code, g) => PutExactly(Collected(codes, g.createdAt), Entry(code, g), e);
    case TokenStep(r, now) => FilterMembers(Collected(codes, now), (x: Entry) => x.code != r.code);
  }

  // The store before each step of a run and after the last.
  function StoresOf(s256: string -> string, run: seq<Step>): (stores: seq<Codes>)
    ensures |stores| == |run| + 1 && forall n :: 0 <= n <= |run| ==> stores[n] == CodesAfter(s256, run, n)
  {
    seq(|run| + 1, n requires 0 <= n <= |run| => CodesAfter(s256, run, n))
  }

  // The step leaves alone what is stored under the entry's code.
  ghost predicate Spares(codes: Codes, step: Step, e: Entry) {
    && !Issues(step, e.code) && !Attempts(step, e.code)
    && !(Collects(step) && TakenAway(codes, TimeOf(step), e))
  }

  // The i-th step issued the entry, and no step since issued its code again, was
  // asked for it, or collected it.
  ghost predicate HeldSince(stores: seq<Codes>, run: seq<Step>, i: nat, n: nat, e: Entry)
    requires n <= |run| <= |stores|
  {
    && i < n && run[i] == IssueStep(e.code, e.grant)
    && forall j :: i < j < n ==> Spares(stores[j], run[j], e)
  }

  ghost predicate Held(stores: seq<Codes>, run: seq<Step>, n: nat, e: Entry)
    requires n <= |run| <= |stores|
  {
    exists i: nat :: HeldSince(stores, run, i, n, e)
  }

  // After step m the entry is there if the step issued it, or spared it where it was.
  ghost predicate StepsTo(stores: seq<Codes>, run: seq<Step>, m: nat, n: nat, e: Entry)
    requires m < |run| && n < |stores| && m < |stores|
  {
    e in stores[n] <==> run[m] == IssueStep(e.code, e.grant) || (e in stores[m] && Spares(stores[m], run[m], e))
  }

  lemma {:induction false} StoredIsHeld(stores: seq<Codes>, run: seq<Step>, n: nat, e: Entry) returns (i: nat)
    requires n <= |run| < |stores| && stores[0] == [] && e in stores[n]
    requires forall m, k :: 0 <= m < k < |stores| && k == m + 1 && m < |run| ==> StepsTo(stores, run, m, k, e)
    ensures HeldSince(stores, run, i, n, e)
  {
    assert n > 0 && StepsTo(stores, run, n - 1, n, e);
    if run[n - 1] == IssueStep(e.code, e.grant) {
      i := n - 1;
    } else {
      i := StoredIsHeld(stores, run, n - 1, e);
    }
  }

  lemma {:induction false} HeldIsStored(stores: seq<Codes>, run: seq<Step>, i: nat, n: nat, e: Entry)
    requires n <= |run| < |stores| && HeldSince(stores, run, i, n, e)
    requires forall m, k :: 0 <= m < k < |stores| && k == m + 1 && m < |run| ==> StepsTo(stores, run, m, k, e)
    ensures e in stores[n]
    decreases n
  {
    assert StepsTo(stores, run, n - 1, n, e);
    if i < n - 1 {
      HeldIsStored(stores, run, i, n - 1, e);
    }
  }

  lemma RunSteps(s256: string -> string, run: seq<Step>, m: nat, k: nat, e: Entry)
    requires m < |run| && k == m + 1
    ensures StepsTo(StoresOf(s256, run), run, m, k, e)
  {
    StoreIsBounded(s256, run, m);
    StepExactly(s256, CodesAfter(s256, run, m), run[m], e);
  }

  // What is stored after n steps is exactly what was issued and held since.
  lemma StoredExactly(s256: string -> string, run: seq<Step>, n: nat, e: Entry)
    requires n <= |run|
    ensures e in CodesAfter(s256, run, n) <==> Held(StoresOf(s256, run), run, n, e)
  {
    var stores := StoresOf(s256, run);
    forall m, k | 0 <= m < k < |stores| && k == m + 1 && m < |run| ensures StepsTo(stores, run, m, k, e) {
      RunSteps(s256, run, m, k, e);
    }
    if e in stores[n] {
      var i := StoredIsHeld(stores, run, n, e);
    }
    if i: nat :| HeldSince(stores, run, i, n, e) {
      HeldIsStored(stores, run, i, n, e);
    }
  }

  // No issue of the code and no attempt on it strictly between two steps.
  ghost predicate Untouched(run: seq<Step>, i: int, n: int, code: string)
    requires n <= |run|
  {
    forall j :: 0 <= i < j < n ==> !Issues(run[j], code) && !Attempts(run[j], code)
  }

  // A stored grant is its code's latest issue, unattempted since.
  lemma StoredIsLatestIssue(s256: string -> string, run: seq<Step>, n: nat, e: Entry) returns (i: nat)
    requires n <= |run| && e in CodesAfter(s256, run, n)
    ensures i < n && run[i] == IssueStep(e.code, e.grant)
    ensures Untouched(run, i, n, e.code)
  {
    StoredExactly(s256, run, n, e);
    i :| HeldSince(StoresOf(s256, run), run, i, n, e);
    forall j | i < j < n ensures !Issues(run[j], e.code) && !Attempts(run[j], e.code) {
      assert Spares(StoresOf(s256, run)[j], run[j], e);
    }
  }

  // A success redeems the code's latest issue, within 300 seconds of it, with
  // its redirect URI and a verifier whose digest is its challenge, and no
  // attempt on the code came in between.
  lemma SuccessIsEarned(s256: string -> string, run: seq<Step>, n: nat, code: string) returns (i: nat)
    requires n < |run| && Succeeds(s256, run, n, code)
    ensures i < n && Issues(run[i], code)
    ensures forall j :: i < j < n ==> !Issues(run[j], code) && !Attempts(run[j], code)
    ensures run[n].now <= run[i].grant.createdAt + 300_000_000
    ensures run[n].request.redirectUri == run[i].grant.redirectUri
    ensures run[n].request.verifier != "" && s256(run[n].request.verifier) == run[i].grant.challenge
    ensures ResponseAt(s256, run, n) == Token(run[i].grant.accessToken)
  {
    var codes := CodesAfter(s256, run, n);
    var kept := Collected(codes, run[n].now);
    var g := Find(kept, code).value;
    StoreIsBounded(s256, run, n);
    EvictsOldest(codes, run[n].now);
    i := StoredIsLatestIssue(s256, run, n, Entry(code, g));
  }

  function CountTrue(marks: seq<bool>, n: nat): nat
    requires n <= |marks|
  {
    if n == 0 then 0 else CountTrue(marks, n - 1) + if marks[n - 1] then 1 else 0
  }

  // Which steps yield a token for the code, which issue it, and when it is held.
  function TokensOf(s256: string -> string, run: seq<Step>, code: string): seq<bool> {
    seq(|run|, i requires 0 <= i < |run| => Succeeds(s256, run, i, code))
  }

  function IssuesOf(run: seq<Step>, code: string): seq<bool> {
    seq(|run|, i requires 0 <= i < |run| => Issues(run[i], code))
  }

  function HoldsOf(s256: string -> string, run: seq<Step>, code: string): seq<bool> {
    seq(|run| + 1, n requires 0 <= n <= |run| => Has(CodesAfter(s256, run, n), code))
  }

  function Successes(s256: string -> string, run: seq<Step>, n: nat, code: string): nat
    requires n <= |run|
  {
    CountTrue(TokensOf(s256, run, code), n)
  }

  function TimesIssued(run: seq<Step>, n: nat, code: string): nat
    requires n <= |run|
  {
    CountTrue(IssuesOf(run, code), n)
  }

  // Whatever is spent was held or came in.
  ghost predicate Pays(token: bool, heldAfter: bool, heldBefore: bool, issued: bool) {
    (if token then 1 else 0) + (if heldAfter then 1 else 0)
    <= (if heldBefore then 1 else 0) + if issued then 1 else 0
  }

  lemma {:induction false} SpendingAddsUp(tokens: seq<bool>, holds: seq<bool>, issues: seq<bool>, n: nat)
    requires |tokens| == |issues| && |holds| == |tokens| + 1 && n <= |tokens| && !holds[0]
    requires forall i, k :: 0 <= i < k < |holds| && k == i + 1 ==> Pays(tokens[i], holds[k], holds[i], issues[i])
    ensures CountTrue(tokens, n) + (if holds[n] then 1 else 0) <= CountTrue(issues, n)
  {
    if n > 0 {
      SpendingAddsUp(tokens, holds, issues, n - 1);
      assert Pays(tokens[n - 1], holds[n], holds[n - 1], issues[n - 1]);
    }
  }

  lemma StepSpends(s256: string -> string, run: seq<Step>, i: nat, code: string)
    requires i < |run|
    ensures Pays(Succeeds(s256, run, i, code), Has(CodesAfter(s256, run, i + 1), code),
                 Has(CodesAfter(s256, run, i), code), Issues(run[i], code))
  {
    var before := CodesAfter(s256, run, i);
    StoreIsBounded(s256, run, i);
    var after := CodesAfter(s256, run, i + 1);
    if e :| e in after && e.code == code {
      StepExactly(s256, before, run[i], e);
    }
    if Succeeds(s256, run, i, code) {
      EvictsOldest(before, run[i].now);
    }
  }

  // A code yields a token at most as often as it was issued, less one while it is
  // still held: at most once, when no code is ever issued twice.
  lemma TokensNeverExceedIssues(s256: string -> string, run: seq<Step>, n: nat, code: string)
    requires n <= |run|
    ensures Successes(s256, run, n, code) + (if Has(CodesAfter(s256, run, n), code) then 1 else 0)
            <= TimesIssued(run, n, code)
  {
    var tokens, holds, issues := TokensOf(s256, run, code), HoldsOf(s256, run, code), IssuesOf(run, code);
    forall i, k | 0 <= i < k < |holds| && k == i + 1 ensures Pays(tokens[i], holds[k], holds[i], issues[i]) {
      StepSpends(s256, run, i, code);
    }
    SpendingAddsUp(tokens, holds, issues, n);
  }

  lemma IssueIsLater(run: seq<Step>, a: nat, i: nat, n: nat, code: string)
    requires a < n <= |run| && i < n && Attempts(run[a], code) && Issues(run[i], code)
    requires forall j :: i < j < n ==> !Attempts(run[j], code)
    ensures a < i
  {
  }

  // Any attempt spends the code: it yields nothing afterwards until the same
  // code is issued again.
  lemma AttemptSpendsTheCode(s256: string -> string, run: seq<Step>, a: nat, n: nat, code: string)
    requires a < n < |run| && Attempts(run[a], code)
    requires forall j :: a < j < n ==> !Issues(run[j], code)
    ensures !Succeeds(s256, run, n, code)
  {
    if Succeeds(s256, run, n, code) {
      var i := SuccessIsEarned(s256, run, n, code);
      IssueIsLater(run, a, i, n, code);
    }
  }

  // ---- what was issued is honoured ----

  // A token comes out of an attempt exactly when its code was issued and held
  // since, this request's own collection included, and the request shows its
  // redirect URI and a plain verifier whose digest is its challenge.
  lemma SucceedsExactly(s256: string -> string, run: seq<Step>, n: nat, g: Grant)
    requires n < |run| && run[n].TokenStep? && run[n].request.grantType == "authorization_code"
    ensures var r := run[n].request;
            Held(StoresOf(s256, run), run, n, Entry(r.code, g))
            && !TakenAway(CodesAfter(s256, run, n), run[n].now, Entry(r.code, g)) ==>
              && (ResponseAt(s256, run, n).Token? <==>
                  && g.redirectUri == r.redirectUri && r.verifier != "" && g.challenge != ""
                  && Plain(r.verifier) && Plain(g.challenge) && s256(r.verifier) == g.challenge)
              && (ResponseAt(s256, run, n).Token? ==> ResponseAt(s256, run, n) == Token(g.accessToken))
    ensures var r := run[n].request;
            (ResponseAt(s256, run, n) == UnknownOrExpired <==>
             forall h: Grant :: Held(StoresOf(s256, run), run, n, Entry(r.code, h)) ==>
               TakenAway(CodesAfter(s256, run, n), run[n].now, Entry(r.code, h)))
  {
    var codes, r, now := CodesAfter(s256, run, n), run[n].request, run[n].now;
    StoreIsBounded(s256, run, n);
    EvictsOldest(codes, now);
    AnswersExactly(s256, codes, r, now);
    forall h: Grant
      ensures Find(Collected(codes, now), r.code) == Some(h) <==>
              Held(StoresOf(s256, run), run, n, Entry(r.code, h)) && !TakenAway(codes, now, Entry(r.code, h))
    {
      FoundExactly(s256, run, n, r.code, h);
    }
  }

  lemma FoundExactly(s256: string -> string, run: seq<Step>, n: nat, code: string, g: Grant)
    requires n < |run| && run[n].TokenStep?
    ensures var codes, now := CodesAfter(s256, run, n), run[n].now;
            Find(Collected(codes, now), code) == Some(g) <==>
            Held(StoresOf(s256, run), run, n, Entry(code, g)) && !TakenAway(codes, now, Entry(code, g))
  {
    var codes, now := CodesAfter(s256, run, n), run[n].now;
    StoreIsBounded(s256, run, n);
    EvictsOldest(codes, now);
    FindExactly(Collected(codes, now), code, g);
    StoredExactly(s256, run, n, Entry(code, g));
    if Entry(code, g) in codes {
      CollectionExactly(codes, now, Entry(code, g));
    }
  }

  // So a client that redeems its latest code once, within 300 seconds, with the
  // redirect URI and the verifier it began with, gets its token, as long as the
  // clock does not run backwards and the store was never full in between.
  lemma HonestClientGetsToken(s256: string -> string, run: seq<Step>, i: nat, n: nat)
    requires i < n < |run| && run[i].IssueStep? && run[n].TokenStep?
    requires forall j, k :: i <= j < k <= n ==> TimeOf(run[j]) <= TimeOf(run[k])
    requires forall j :: i < j < n ==> !Issues(run[j], run[i].code) && !Attempts(run[j], run[i].code)
    requires forall j :: i < j <= n ==> |CodesAfter(s256, run, j)| < 100_000
    requires run[n].now <= run[i].grant.createdAt + 300_000_000
    requires var r, g := run[n].request, run[i].grant;
             && r.grantType == "authorization_code" && r.code == run[i].code && r.redirectUri == g.redirectUri
             && r.verifier != "" && g.challenge != "" && Plain(r.verifier) && Plain(g.challenge)
             && s256(r.verifier) == g.challenge
    ensures ResponseAt(s256, run, n) == Token(run[i].grant.accessToken)
  {
    var e := Entry(run[i].code, run[i].grant);
    forall j | i < j <= n ensures !TakenAway(CodesAfter(s256, run, j), TimeOf(run[j]), e) {
      FilterLength(CodesAfter(s256, run, j), (x: Entry) => !Expired(x, TimeOf(run[j])));
    }
    assert HeldSince(StoresOf(s256, run), run, i, n, e);
    SucceedsExactly(s256, run, n, run[i].grant);
  }
}
