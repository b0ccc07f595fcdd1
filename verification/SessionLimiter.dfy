// The concurrent-session cap (src/cra/server/session_limiter.py): a lazily swept
// table of last-seen times that decides exactly as a sliding window over the
// whole request history would.
module SessionLimiter {
  import opened Ordering

  type Id = string

  // 60 seconds, in microseconds.
  const IDLE := 60_000_000

  datatype Request = Request(user: Id, session: Option<Id>, time: int)

  datatype Event = Event(request: Request, allowed: bool, count: nat) {
    predicate Admits(user: Id) { allowed && request.user == user && request.session.Some? }
  }

  // ---- the specification: no table, only history ----

  // Ids the user was admitted with during the last 60 seconds.
  function Active(h: seq<Event>, user: Id, now: int): set<Id> {
    set e | e in h && e.Admits(user) && e.request.time >= now - IDLE :: e.request.session.value
  }

  function DecideOn(active: set<Id>, r: Request, limit: nat): (e: Event)
    ensures e.request == r
  {
    match r.session
    case None => Event(r, |active| < limit, |active|)
    case Some(s) =>
      if s in active then Event(r, true, |active|)
      else if |active| >= limit then Event(r, false, |active|)
      else Event(r, true, |active| + 1)
  }

  function Decide(h: seq<Event>, r: Request, limit: nat): (e: Event)
    ensures e.request == r
  {
    DecideOn(Active(h, r.user, r.time), r, limit)
  }

  function Replay(rs: seq<Request>, limit: nat): seq<Event> {
    if rs == [] then []
    else var n := |rs| - 1; var h := Replay(rs[..n], limit); h + [Decide(h, rs[n], limit)]
  }

  ghost predicate InOrder(rs: seq<Request>) {
    forall i, j :: 0 <= i < j < |rs| ==> rs[i].time <= rs[j].time
  }

  // ---- the table ----

  // The table may hold dead sessions, but within the last 60 seconds of the
  // clock it and the history know the same ids.
  ghost predicate Tracks(sessions: Table, h: seq<Event>, now: int) {
    && (forall u, s :: u in sessions && s in sessions[u] ==>
          exists e :: e in h && e.Admits(u) && e.request.session.value == s && e.request.time == sessions[u][s])
    && (forall e :: e in h && e.Admits(e.request.user) && e.request.time >= now - IDLE ==>
          && e.request.user in sessions
          && e.request.session.value in sessions[e.request.user]
          && e.request.time <= sessions[e.request.user][e.request.session.value])
  }

  type Table = map<Id, map<Id, int>>

  function Live(mine: map<Id, int>, now: int): map<Id, int> { map s | s in mine && mine[s] >= now - IDLE :: mine[s] }

  function Row(t: Table, user: Id): map<Id, int> { if user in t then t[user] else map[] }

  // One user's dead sessions dropped, and the user when none is left.
  function Cleaned(t: Table, user: Id, now: int): Table {
    if Row(t, user) == map[] then t
    else if Live(t[user], now) == map[] then t - {user}
    else t[user := Live(t[user], now)]
  }

  lemma CleanedTracks(t: Table, h: seq<Event>, user: Id, before: int, now: int)
    requires Tracks(t, h, before) && before <= now
    ensures Tracks(Cleaned(t, user, now), h, now)
  {
    var c := Cleaned(t, user, now);
    forall e | e in h && e.Admits(user) && e.request.time >= now - IDLE
      ensures user in c && e.request.session.value in c[user] && e.request.time <= c[user][e.request.session.value]
    {
      assert e.Admits(e.request.user);
      assert e.request.session.value in Live(t[user], now);
    }
  }

  lemma CleanedRowIsLive(t: Table, user: Id, now: int)
    ensures Row(Cleaned(t, user, now), user) == Live(Row(t, user), now)
  {
  }

  lemma LiveIsActive(t: Table, h: seq<Event>, user: Id, before: int, now: int)
    requires Tracks(t, h, before) && before <= now
    ensures Live(Row(t, user), now).Keys == Active(h, user, now)
  {
    forall s | s in Live(Row(t, user), now) ensures s in Active(h, user, now) {
      var e :| e in h && e.Admits(user) && e.request.session.value == s && e.request.time == t[user][s];
    }
    forall e | e in h && e.Admits(user) && e.request.time >= now - IDLE
      ensures e.request.session.value in Live(Row(t, user), now)
    {
      assert e.Admits(e.request.user);
    }
  }

  // A sweep keeps the table honest at any later time, and then the user's row
  // is exactly the window.
  lemma CleanedIsWindow(t: Table, h: seq<Event>, user: Id, before: int, now: int)
    requires Tracks(t, h, before) && before <= now
    ensures Tracks(Cleaned(t, user, now), h, now)
    ensures Row(Cleaned(t, user, now), user).Keys == Active(h, user, now)
  {
    CleanedTracks(t, h, user, before, now);
    CleanedRowIsLive(t, user, now);
    LiveIsActive(t, h, user, before, now);
  }

  // The table once a decision is recorded; a refusal leaves an empty row behind.
  function Record(t: Table, e: Event): Table {
    var u := e.request.user;
    if e.allowed && e.request.session.Some? then t[u := Row(t, u)[e.request.session.value := e.request.time]]
      else t[u := Row(t, u)]
  }

  // No event of the history is later than this.
  ghost predicate Past(h: seq<Event>, now: int) { forall e :: e in h ==> e.request.time <= now }

  lemma RecordTracks(t: Table, h: seq<Event>, e: Event)
    requires Tracks(t, h, e.request.time)
    requires Past(h, e.request.time)
    ensures Tracks(Record(t, e), h + [e], e.request.time)
  {
    assert e in h + [e];
    if e.allowed && e.request.session.Some? {
      assert e.Admits(e.request.user);
    }
  }

  ghost predicate Honest(t: Table, rs: seq<Request>, limit: nat) {
    && InOrder(rs)
    && (rs == [] ==> t == map[])
    && (rs != [] ==> Tracks(t, Replay(rs, limit), rs[|rs| - 1].time))
  }

  // The answer the table gives, and the table afterwards.
  function Answer(t: Table, r: Request, limit: nat): Event {
    var mine := Row(Cleaned(t, r.user, r.time), r.user);
    if r.session.None? then Event(r, |mine| < limit, |mine|)
    else if r.session.value in mine then Event(r, true, |mine|)
    else if |mine| >= limit then Event(r, false, |mine|)
    else Event(r, true, |mine| + 1)
  }

  function Next(t: Table, r: Request, limit: nat): Table { Record(Cleaned(t, r.user, r.time), Answer(t, r, limit)) }

  lemma TableIsWindow(t: Table, rs: seq<Request>, r: Request, limit: nat)
    requires Honest(t, rs, limit)
    requires rs != [] ==> rs[|rs| - 1].time <= r.time
    ensures Tracks(Cleaned(t, r.user, r.time), Replay(rs, limit), r.time)
    ensures Row(Cleaned(t, r.user, r.time), r.user).Keys == Active(Replay(rs, limit), r.user, r.time)
    ensures Answer(t, r, limit) == Decide(Replay(rs, limit), r, limit)
  {
    CleanedIsWindow(t, Replay(rs, limit), r.user, if rs == [] then r.time else rs[|rs| - 1].time, r.time);
    var mine := Row(Cleaned(t, r.user, r.time), r.user);
    assert |mine| == |mine.Keys|;
  }

  lemma NextTracks(t: Table, h: seq<Event>, e: Event)
    requires Tracks(Cleaned(t, e.request.user, e.request.time), h, e.request.time)
    requires Past(h, e.request.time)
    ensures Tracks(Record(Cleaned(t, e.request.user, e.request.time), e), h + [e], e.request.time)
  {
    RecordTracks(Cleaned(t, e.request.user, e.request.time), h, e);
  }

  lemma TracksIsHonest(t: Table, rs: seq<Request>, r: Request, limit: nat, h: seq<Event>)
    requires InOrder(rs) && (rs != [] ==> rs[|rs| - 1].time <= r.time)
    requires h == Replay(rs + [r], limit) && Tracks(t, h, r.time)
    ensures Honest(t, rs + [r], limit)
  {
    assert (rs + [r])[|rs|] == r;
  }

  lemma NextIsHonest(t: Table, rs: seq<Request>, r: Request, limit: nat, h: seq<Event>, e: Event)
    requires InOrder(rs) && (rs != [] ==> rs[|rs| - 1].time <= r.time)
    requires h == Replay(rs, limit) && e == Decide(h, r, limit) && e == Answer(t, r, limit)
    requires Tracks(Cleaned(t, r.user, r.time), h, r.time) && Past(h, r.time)
    ensures Honest(Next(t, r, limit), rs + [r], limit)
  {
    NextTracks(t, h, e);
    Recorded(h, r, e, rs, limit);
    TracksIsHonest(Next(t, r, limit), rs, r, limit, h + [e]);
  }

  lemma TableStaysHonest(t: Table, rs: seq<Request>, r: Request, limit: nat)
    requires Honest(t, rs, limit)
    requires rs != [] ==> rs[|rs| - 1].time <= r.time
    ensures Honest(Next(t, r, limit), rs + [r], limit)
  {
    TableIsWindow(t, rs, r, limit);
    EventTimes(rs, limit, r.time);
    NextIsHonest(t, rs, r, limit, Replay(rs, limit), Decide(Replay(rs, limit), r, limit));
  }

  class Limiter {
    const limit: nat
    var sessions: Table
    ghost var requests: seq<Request>

    ghost predicate Valid()
      reads this
    {
      Honest(sessions, requests, limit)
    }

    constructor (limit: nat)
      ensures Valid() && requests == [] && this.limit == limit
    {
      this.limit := limit;
      sessions := map[];
      requests := [];
    }

    method Sweep(user: Id, now: int)
      modifies this`sessions
      ensures sessions == Cleaned(old(sessions), user, now)
    {
      if Row(sessions, user) == map[] {
        return;
      }
      var mine := sessions[user];
      var threshold := now - IDLE;
      var dead := set s | s in mine && mine[s] < threshold;
      while dead != {}
        invariant forall s :: s in mine ==> s in sessions[user] && mine[s] == sessions[user][s]
        invariant forall s :: s in sessions[user] && s !in mine ==> sessions[user][s] < threshold
        invariant forall s :: s in dead <==> s in mine && mine[s] < threshold
        decreases |dead|
      {
        var s :| s in dead;
        mine := mine - {s};
        dead := dead - {s};
      }
      assert mine == Live(sessions[user], now);
      if mine == map[] {
        sessions := sessions - {user};
      } else {
        sessions := sessions[user := mine];
      }
    }

    // The body of `check_and_track` under its lock, for a positive limit.
    method Track(user: Id, session: Option<Id>, now: int) returns (allowed: bool, count: nat)
      modifies this`sessions
      ensures Event(Request(user, session, now), allowed, count)
              == Answer(old(sessions), Request(user, session, now), limit)
      ensures sessions == Next(old(sessions), Request(user, session, now), limit)
    {
      Sweep(user, now);
      var mine := Row(sessions, user);
      sessions := sessions[user := mine];
      if session.None? {
        return |mine| < limit, |mine|;
      }
      if session.value in mine {
        sessions := sessions[user := mine[session.value := now]];
        return true, |mine|;
      }
      if |mine| >= limit {
        return false, |mine|;
      }
      sessions := sessions[user := mine[session.value := now]];
      return true, |mine| + 1;
    }

    method CheckAndTrack(user: Id, session: Option<Id>, now: int) returns (allowed: bool, count: nat, cap: nat)
      requires Valid()
      requires requests != [] ==> now >= requests[|requests| - 1].time
      modifies this
      ensures Valid() && cap == limit
      ensures limit == 0 ==> allowed && count == 0 && sessions == old(sessions) && requests == old(requests)
      ensures limit > 0 ==>
                && requests == old(requests) + [Request(user, session, now)]
                && Event(Request(user, session, now), allowed, count)
                  == Decide(Replay(old(requests), limit), Request(user, session, now), limit)
    {
      if limit == 0 {
        return true, 0, 0;
      }
      ghost var r := Request(user, session, now);
      TableIsWindow(sessions, requests, r, limit);
      TableStaysHonest(sessions, requests, r, limit);
      requests := requests + [r];
      allowed, count := Track(user, session, now);
      cap := limit;
    }
  }

  lemma {:induction false} ReplayTimes(rs: seq<Request>, limit: nat)
    ensures |Replay(rs, limit)| == |rs|
    ensures forall i :: 0 <= i < |rs| ==> Replay(rs, limit)[i].request == rs[i]
  {
    if rs != [] {
      ReplayTimes(rs[..|rs| - 1], limit);
    }
  }

  lemma EventTimes(rs: seq<Request>, limit: nat, end: int)
    requires InOrder(rs) && (rs != [] ==> rs[|rs| - 1].time <= end)
    ensures Past(Replay(rs, limit), end)
  {
    ReplayTimes(rs, limit);
    var h := Replay(rs, limit);
    forall e | e in h ensures e.request.time <= end {
      var i :| 0 <= i < |h| && h[i] == e;
      assert e.request == rs[i];
    }
  }

  lemma Recorded(h: seq<Event>, r: Request, e: Event, rs: seq<Request>, limit: nat)
    requires h == Replay(rs, limit) && e == Decide(h, r, limit)
    ensures Replay(rs + [r], limit) == h + [e]
  {
    assert (rs + [r])[..|rs|] == rs;
  }

  // ---- what the cap guarantees over a whole history ----

  lemma ActiveStep(h: seq<Event>, r: Request, limit: nat, user: Id, now: int)
    requires r.time <= now
    requires |Active(h, user, now)| <= limit && |Active(h, user, r.time)| <= limit
    ensures |Active(h + [Decide(h, r, limit)], user, now)| <= limit
  {
    var e := Decide(h, r, limit);
    if e.Admits(user) {
      var wider := Active(h, user, r.time) + {r.session.value};
      assert Active(h + [e], user, now) <= wider;
      SubsetSize(Active(h + [e], user, now), wider);
    } else {
      assert Active(h + [e], user, now) == Active(h, user, now);
    }
  }

  lemma {:induction false} ActiveBounded(rs: seq<Request>, limit: nat, user: Id, now: int)
    requires InOrder(rs) && limit > 0
    requires rs != [] ==> rs[|rs| - 1].time <= now
    ensures |Active(Replay(rs, limit), user, now)| <= limit
  {
    if rs != [] {
      var n := |rs| - 1;
      ActiveBounded(rs[..n], limit, user, now);
      ActiveBounded(rs[..n], limit, user, rs[n].time);
      ActiveStep(Replay(rs[..n], limit), rs[n], limit, user, now);
    }
  }

  // Ids admitted for a user inside the window of 60 seconds that closes at `end`.
  function AdmittedWithin(h: seq<Event>, user: Id, end: int): set<Id> {
    set e | e in h && e.allowed && e.request.user == user && e.request.session.Some?
            && end - 60_000_000 <= e.request.time <= end :: e.request.session.value
  }

  // In any 60-second window at most `limit` distinct ids are admitted per user.
  lemma {:induction false} WindowBounded(rs: seq<Request>, limit: nat, user: Id, end: int)
    requires InOrder(rs) && limit > 0
    ensures |AdmittedWithin(Replay(rs, limit), user, end)| <= limit
  {
    var h := Replay(rs, limit);
    if rs == [] || rs[|rs| - 1].time <= end {
      EventTimes(rs, limit, end);
      assert AdmittedWithin(h, user, end) == Active(h, user, end);
      ActiveBounded(rs, limit, user, end);
    } else {
      var n := |rs| - 1;
      WindowBounded(rs[..n], limit, user, end);
      var e := Decide(Replay(rs[..n], limit), rs[n], limit);
      assert AdmittedWithin(h, user, end) == AdmittedWithin(Replay(rs[..n], limit), user, end);
    }
  }

  // Ids the user was admitted with from 60 seconds before this moment on.
  ghost function LastMinute(h: seq<Event>, user: Id, now: int): set<Id> {
    set e | e in h && e.allowed && e.request.user == user && e.request.session.Some?
            && e.request.time >= now - 60_000_000 :: e.request.session.value
  }

  lemma ActiveIsLastMinute(h: seq<Event>, user: Id, now: int)
    ensures Active(h, user, now) == LastMinute(h, user, now)
  {
  }

  // A new id is refused exactly when `limit` others were admitted within the
  // last 60 seconds, and a known one never is.
  lemma RefusedOnlyAtTheCap(rs: seq<Request>, limit: nat, i: nat)
    requires InOrder(rs) && limit > 0 && i < |rs| && rs[i].session.Some?
    ensures |Replay(rs, limit)| == |rs|
    ensures var others := LastMinute(Replay(rs[..i], limit), rs[i].user, rs[i].time);
            !Replay(rs, limit)[i].allowed <==> rs[i].session.value !in others && |others| == limit
  {
    ActiveBounded(rs[..i], limit, rs[i].user, rs[i].time);
    ReplayPrefix(rs, limit, i);
    ActiveIsLastMinute(Replay(rs[..i], limit), rs[i].user, rs[i].time);
  }

  lemma ReplayFront(rs: seq<Request>, limit: nat)
    requires rs != []
    ensures var front, last := rs[..|rs| - 1], rs[|rs| - 1];
            Replay(rs, limit) == Replay(front, limit) + [Decide(Replay(front, limit), last, limit)]
    ensures |Replay(rs, limit)| == |rs| && |Replay(rs[..|rs| - 1], limit)| == |rs| - 1
  {
    ReplayTimes(rs[..|rs| - 1], limit);
  }

  lemma {:induction false} ReplayOfPrefix(rs: seq<Request>, limit: nat, i: nat)
    requires i <= |rs|
    ensures |Replay(rs, limit)| == |rs| && Replay(rs, limit)[..i] == Replay(rs[..i], limit)
  {
    if i == |rs| {
      ReplayTimes(rs, limit);
      assert rs[..i] == rs;
    } else {
      ReplayFront(rs, limit);
      ReplayOfPrefix(rs[..|rs| - 1], limit, i);
      assert rs[..|rs| - 1][..i] == rs[..i];
    }
  }

  lemma ReplayPrefix(rs: seq<Request>, limit: nat, i: nat)
    requires i < |rs|
    ensures |Replay(rs, limit)| == |rs| && Replay(rs, limit)[i] == Decide(Replay(rs[..i], limit), rs[i], limit)
  {
    ReplayOfPrefix(rs, limit, i + 1);
    ReplayFront(rs[..i + 1], limit);
    assert rs[..i + 1][..i] == rs[..i];
  }

  lemma OneMoreMinute(h: seq<Event>, e: Event)
    ensures var user, now := e.request.user, e.request.time;
            LastMinute(h + [e], user, now)
            == LastMinute(h, user, now) + if e.allowed && e.request.session.Some? then {e.request.session.value} else {}
  {
    var own := if e.allowed && e.request.session.Some? then {e.request.session.value} else {};
    var user, now := e.request.user, e.request.time;
    forall id ensures id in LastMinute(h + [e], user, now) <==> id in LastMinute(h, user, now) + own {
      assert e in h + [e] && forall x :: x in h + [e] <==> x in h || x == e;
    }
  }

  lemma AnswerCounts(active: set<Id>, r: Request, limit: nat)
    ensures var e := DecideOn(active, r, limit);
            && e.count == |active + if e.allowed && r.session.Some? then {r.session.value} else {}|
            && (r.session.None? ==> (e.allowed <==> e.count < limit))
            && (r.session.None? || !e.allowed ==> e.count == |active|)
  {
    assert active + {} == active;
    if r.session.Some? && r.session.value in active {
      assert active + {r.session.value} == active;
    }
  }

  lemma DecideCounts(h: seq<Event>, r: Request, limit: nat)
    ensures var e := Decide(h, r, limit);
            && e.count == |LastMinute(h + [e], r.user, r.time)|
            && (r.session.None? ==> (e.allowed <==> e.count < limit))
            && (r.session.None? || !e.allowed ==> e.count == |LastMinute(h, r.user, r.time)|)
  {
    ActiveIsLastMinute(h, r.user, r.time);
    AnswerCounts(LastMinute(h, r.user, r.time), r, limit);
    OneMoreMinute(h, Decide(h, r, limit));
  }

  // The count in every answer is the number of ids the user was admitted with in
  // the 60 seconds up to it, its own included; a request without an id is let
  // through exactly below the limit, and is never itself counted.
  lemma CountsAreExact(rs: seq<Request>, limit: nat, i: nat)
    requires i < |rs|
    ensures |Replay(rs, limit)| == |rs|
    ensures var e := Replay(rs, limit)[i];
            && e.request == rs[i]
            && e.count == |LastMinute(Replay(rs[..i + 1], limit), rs[i].user, rs[i].time)|
            && (rs[i].session.None? ==>
                  && e.count == |LastMinute(Replay(rs[..i], limit), rs[i].user, rs[i].time)|
                  && (e.allowed <==> e.count < limit))
  {
    ReplayPrefix(rs, limit, i);
    ReplayFront(rs[..i + 1], limit);
    assert rs[..i + 1][..i] == rs[..i];
    DecideCounts(Replay(rs[..i], limit), rs[i], limit);
  }

  function RequestsOf(rs: seq<Request>, user: Id): seq<Request> { Filter(rs, (r: Request) => r.user == user) }

  function EventsOf(h: seq<Event>, user: Id): seq<Event> { Filter(h, (e: Event) => e.request.user == user) }

  lemma OneMoreEvent(h: seq<Event>, e: Event, user: Id)
    ensures EventsOf(h + [e], user) == if e.request.user == user then EventsOf(h, user) + [e] else EventsOf(h, user)
  {
    assert (h + [e])[..|h|] == h;
  }

  lemma OwnEventsDecide(h: seq<Event>, r: Request, limit: nat)
    ensures Decide(EventsOf(h, r.user), r, limit) == Decide(h, r, limit)
  {
    FilterMembers(h, (e: Event) => e.request.user == r.user);
    assert Active(EventsOf(h, r.user), r.user, r.time) == Active(h, r.user, r.time);
  }

  lemma IsolatedStep(h: seq<Event>, r: Request, mine: seq<Request>, limit: nat, user: Id)
    requires Replay(mine, limit) == EventsOf(h, user)
    ensures Replay(if r.user == user then mine + [r] else mine, limit) == EventsOf(h + [Decide(h, r, limit)], user)
  {
    OneMoreEvent(h, Decide(h, r, limit), user);
    if r.user == user {
      OwnEventsDecide(h, r, limit);
      Recorded(EventsOf(h, user), r, Decide(h, r, limit), mine, limit);
    }
  }

  lemma OneMoreRequest(rs: seq<Request>, r: Request, user: Id)
    ensures RequestsOf(rs + [r], user) == if r.user == user then RequestsOf(rs, user) + [r] else RequestsOf(rs, user)
  {
    assert (rs + [r])[..|rs|] == rs;
  }

  // Users never affect each other: replaying one user's requests alone gives
  // that user the same answers.
  lemma {:induction false} UsersAreIsolated(rs: seq<Request>, limit: nat, user: Id)
    ensures Replay(RequestsOf(rs, user), limit) == EventsOf(Replay(rs, limit), user)
  {
    if rs != [] {
      var before, r := rs[..|rs| - 1], rs[|rs| - 1];
      var h := Replay(before, limit);
      UsersAreIsolated(before, limit, user);
      assert rs == before + [r];
      Recorded(h, r, Decide(h, r, limit), before, limit);
      OneMoreRequest(before, r, user);
      IsolatedStep(h, r, RequestsOf(before, user), limit, user);
    }
  }
}
