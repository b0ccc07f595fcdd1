// Webhook processing and the plan an account is on
// (src/cra/server/billing.py, src/cra/server/entitlements.py).
module Billing {
  import opened Ordering
  import opened Strings

  type Id = string

  // ---- plans ----

  const LADDER := ["free", "early_access", "solo", "team", "portfolio", "founding", "internal"]

  // Plans granted rather than bought: no paid-through date to fall off.
  const GRANTS := {"free", "founding", "internal"}

  function Normalise(s: string): string { Lower(Strip(s)) }

  datatype User = User(id: Id, tier: string, tierUntil: Option<int>, status: Option<string>, customer: Option<string>)

  // What reading an account can yield: the database may fail, or hold no such row.
  datatype Account = Nobody | Unreadable | Unknown | Known(user: User)

  function PlanFor(a: Account, now: int): string {
    match a
    case Nobody => "internal"
    case Unreadable => "internal"
    case Unknown => "free"
    case Known(u) =>
      var name := Normalise(if u.tier == "" then "free" else u.tier);
      if name !in LADDER then "free"
      else if name !in GRANTS && u.tierUntil.Some? && u.tierUntil.value < now then "free"
      else name
  }

  // ---- webhook payloads ----

  // The object inside an event, with each field the handlers read; `fetched` is
  // what asking for the subscription would return.
  datatype Payload = Payload(reference: Option<string>, metadataUser: Option<string>, customer: Option<string>,
                             plan: Option<string>, periodEnd: Option<int>, fetched: Option<int>,
                             status: Option<string>, cancelAtPeriodEnd: bool)

  datatype EventKind = CheckoutCompleted | SubscriptionUpdated | SubscriptionDeleted | Other

  // `breaks`: this delivery raises after its id is committed and before its row is.
  datatype Event = Event(id: string, kind: EventKind, payload: Payload, breaks: bool)

  // A plan name outside the ladder grants nothing.
  function PlanFrom(p: Payload): Option<string> {
    if p.plan.None? then None
    else var name := Normalise(p.plan.value); if name == "" || name !in LADDER then None else Some(name)
  }

  function UsableId(isUuid: string -> bool, raw: Option<string>): Option<string> {
    if raw.Some? && raw.value != "" && isUuid(raw.value) then raw else None
  }

  function IndexOf(users: seq<User>, p: User -> bool): (r: Option<int>)
    ensures r.Some? ==> 0 <= r.value < |users| && p(users[r.value]) && forall i :: 0 <= i < r.value ==> !p(users[i])
    ensures r.None? ==> forall i :: 0 <= i < |users| ==> !p(users[i])
    decreases |users|
  {
    if users == [] then None
    else
      var n := |users| - 1;
      var before := IndexOf(users[..n], p);
      if before.Some? then before else if p(users[n]) then Some(n) else None
  }

  // Client reference, then metadata, then the customer the account is known by.
  function UserIdOf(isUuid: string -> bool, users: seq<User>, p: Payload): Option<string> {
    if UsableId(isUuid, p.reference).Some? then p.reference
    else if UsableId(isUuid, p.metadataUser).Some? then p.metadataUser
    else if p.customer.Some? && p.customer.value != "" then
      var i := IndexOf(users, (u: User) => u.customer == p.customer);
      if i.Some? then Some(users[i.value].id) else None
    else None
  }

  function Target(isUuid: string -> bool, users: seq<User>, p: Payload): (r: Option<int>)
    ensures r.Some? ==> 0 <= r.value < |users|
  {
    var id := UserIdOf(isUuid, users, p);
    if id.None? then None else IndexOf(users, (u: User) => u.id == id.value)
  }

  predicate Filled(s: Option<string>) { s.Some? && s.value != "" }

  // ---- what each event does to its user's row ----

  function OnCheckout(u: User, p: Payload): User {
    var plan := PlanFrom(p);
    if plan.None? then u
    else
      var end := if p.periodEnd.Some? then p.periodEnd else p.fetched;
      User(u.id, plan.value, if end.Some? then end else u.tierUntil, Some("active"),
           if !Filled(u.customer) && p.customer.Some? && p.customer.value != "" then p.customer else u.customer)
  }

  function OnUpdated(u: User, p: Payload): User {
    var status := if p.cancelAtPeriodEnd && p.status == Some("active") then Some("canceled")
                  else if p.status.Some? && p.status.value != "" then p.status else u.status;
    var tier := if p.status == Some("active") && PlanFrom(p).Some? then PlanFrom(p).value else u.tier;
    u.(status := status, tier := tier, tierUntil := if p.periodEnd.Some? then p.periodEnd else u.tierUntil)
  }

  function OnDeleted(u: User, p: Payload): User {
    var longer := p.periodEnd.Some? && (u.tierUntil.None? || u.tierUntil.value < p.periodEnd.value);
    u.(status := Some("canceled"), tierUntil := if longer then p.periodEnd else u.tierUntil)
  }

  function On(kind: EventKind, u: User, p: Payload): User {
    match kind
    case CheckoutCompleted => OnCheckout(u, p)
    case SubscriptionUpdated => OnUpdated(u, p)
    case SubscriptionDeleted => OnDeleted(u, p)
    case Other => u
  }

  function UsersAfter(isUuid: string -> bool, users: seq<User>, e: Event): seq<User> {
    var i := Target(isUuid, users, e.payload);
    if e.kind.Other? || e.breaks || i.None? then users else users[i.value := On(e.kind, users[i.value], e.payload)]
  }

  datatype State = State(users: seq<User>, processed: set<string>)

  function Handled(isUuid: string -> bool, s: State, e: Event): State {
    if e.id == "" || e.id in s.processed then s
    else State(UsersAfter(isUuid, s.users, e), s.processed + {e.id})
  }

  function Processed(isUuid: string -> bool, s: State, es: seq<Event>): State {
    if es == [] then s else Handled(isUuid, Processed(isUuid, s, es[..|es| - 1]), es[|es| - 1])
  }

  predicate Lapsed(u: User, now: int) { u.tier !in GRANTS && u.tierUntil.Some? && u.tierUntil.value < now }

  function Expired(u: User, now: int): User { if Lapsed(u, now) then u.(tier := "free") else u }

  datatype Answer = Ignored | Duplicate | Done | Refused | Raised

  class Webhooks {
    const isUuid: string -> bool
    var users: seq<User>
    var processed: set<string>

    constructor (isUuid: string -> bool, users: seq<User>)
      ensures this.isUuid == isUuid && this.users == users && processed == {}
    {
      this.isUuid := isUuid;
      this.users := users;
      processed := {};
    }

    // True on first sight, false when the insert is refused as a duplicate.
    method MarkProcessed(id: string) returns (first: bool)
      modifies this`processed
      ensures first <==> id !in old(processed)
      ensures processed == old(processed) + {id}
    {
      first := id !in processed;
      processed := processed + {id};
    }

    method HandleEvent(e: Event) returns (a: Answer)
      modifies this
      ensures State(users, processed) == Handled(isUuid, old(State(users, processed)), e)
      ensures a.Duplicate? <==> e.id != "" && e.id in old(processed)
      ensures a.Refused? || a.Raised? ==> users == old(users)
    {
      if e.id == "" {
        return Ignored;
      }
      var first := MarkProcessed(e.id);
      if !first {
        return Duplicate;
      }
      if e.kind.Other? {
        return Ignored;
      }
      if e.breaks {
        return Raised;
      }
      var i := Target(isUuid, users, e.payload);
      if i.None? {
        return Refused;
      }
      match e.kind {
        case CheckoutCompleted => a := HandleCheckout(i.value, e.payload);
        case SubscriptionUpdated => HandleUpdated(i.value, e.payload); a := Done;
        case SubscriptionDeleted => HandleDeleted(i.value, e.payload); a := Done;
      }
    }

    // Money changed hands and we cannot tell what for: leave the row alone.
    method HandleCheckout(i: int, p: Payload) returns (a: Answer)
      requires 0 <= i < |users|
      modifies this`users
      ensures users == old(users)[i := OnCheckout(old(users)[i], p)]
      ensures a == if PlanFrom(p).None? then Refused else Done
    {
      var plan := PlanFrom(p);
      if plan.None? {
        return Refused;
      }
      var u := users[i].(tier := plan.value, status := Some("active"));
      if p.customer.Some? && p.customer.value != "" && !Filled(u.customer) {
        u := u.(customer := p.customer);
      }
      var end := if p.periodEnd.Some? then p.periodEnd else p.fetched;
      if end.Some? {
        u := u.(tierUntil := end);
      }
      users := users[i := u];
      return Done;
    }

    method HandleUpdated(i: int, p: Payload)
      requires 0 <= i < |users|
      modifies this`users
      ensures users == old(users)[i := OnUpdated(old(users)[i], p)]
    {
      var u := users[i];
      if p.cancelAtPeriodEnd && p.status == Some("active") {
        u := u.(status := Some("canceled"));
      } else if p.status.Some? && p.status.value != "" {
        u := u.(status := p.status);
      }
      if p.periodEnd.Some? {
        u := u.(tierUntil := p.periodEnd);
      }
      var plan := PlanFrom(p);
      if p.status == Some("active") && plan.Some? && u.tier != plan.value {
        u := u.(tier := plan.value);
      }
      users := users[i := u];
    }

    method HandleDeleted(i: int, p: Payload)
      requires 0 <= i < |users|
      modifies this`users
      ensures users == old(users)[i := OnDeleted(old(users)[i], p)]
    {
      var u := users[i].(status := Some("canceled"));
      if p.periodEnd.Some? && (u.tierUntil.None? || u.tierUntil.value < p.periodEnd.value) {
        u := u.(tierUntil := p.periodEnd);
      }
      users := users[i := u];
    }

    method ExpireStaleTier(id: Id, now: int) returns (r: Option<string>)
      modifies this`users
      ensures var i := IndexOf(old(users), (u: User) => u.id == id);
              if i.None? then users == old(users) && r == None
              else
                && users == old(users)[i.value := Expired(old(users)[i.value], now)]
                && (r == Some("free") <==> Lapsed(old(users)[i.value], now))
      ensures r.Some? ==> r.value == "free"
    {
      var i := IndexOf(users, (u: User) => u.id == id);
      if i.None? {
        return None;
      }
      var u := users[i.value];
      if u.tier !in GRANTS && u.tierUntil.Some? && u.tierUntil.value < now {
        users := users[i.value := u.(tier := "free")];
        return Some("free");
      }
      return None;
    }
  }

  lemma KnownNames()
    ensures Normalise("free") == "free" && Normalise("") == ""
    ensures "founding" in LADDER && "internal" in LADDER && "free" in LADDER
  {
    assert LeftStrip("free") == "free" && RightStrip("free") == "free";
    assert LADDER[0] == "free" && LADDER[5] == "founding" && LADDER[6] == "internal";
  }

  // ---- whom an event is about, and what it leaves on the row ----

  // Who is meant: the client reference if it is an account id, else the metadata's
  // if that is one, else whoever is first known by the customer; and the row is
  // the first with that id.
  lemma TargetExactly(isUuid: string -> bool, users: seq<User>, p: Payload)
    ensures var byReference := p.reference.Some? && p.reference.value != "" && isUuid(p.reference.value);
            var byMetadata := p.metadataUser.Some? && p.metadataUser.value != "" && isUuid(p.metadataUser.value);
            var id, i := UserIdOf(isUuid, users, p), Target(isUuid, users, p);
            && (byReference ==> id == p.reference)
            && (!byReference && byMetadata ==> id == p.metadataUser)
            && (!byReference && !byMetadata ==>
                  if p.customer == None || p.customer == Some("") || forall u :: u in users ==> u.customer != p.customer
                  then id == None
                  else exists j :: 0 <= j < |users| && users[j].customer == p.customer && id == Some(users[j].id)
                                   && forall k :: 0 <= k < j ==> users[k].customer != p.customer)
            && (i == None <==> forall u :: u in users ==> id != Some(u.id))
            && (i.Some? ==> id == Some(users[i.value].id) && forall k :: 0 <= k < i.value ==> id != Some(users[k].id))
  {
    if UserIdOf(isUuid, users, p).Some? {
      var id := UserIdOf(isUuid, users, p).value;
      var i := IndexOf(users, (u: User) => u.id == id);
      if i.Some? {
        assert users[i.value] in users;
      }
    }
    var j := IndexOf(users, (u: User) => u.customer == p.customer);
    if j.Some? {
      assert users[j.value] in users;
    }
  }

  // The plans the ladder names, and the one an event buys: its metadata's, trimmed
  // and in lower case, if the ladder has it.
  lemma PlanFromExactly(p: Payload, name: string)
    ensures name in LADDER <==>
            name in {"free", "early_access", "solo", "team", "portfolio", "founding", "internal"}
    ensures PlanFrom(p) == Some(name) <==> name in LADDER && p.plan.Some? && Lower(Strip(p.plan.value)) == name
  {
    assert LADDER[0] == "free" && LADDER[1] == "early_access" && LADDER[2] == "solo" && LADDER[3] == "team";
    assert LADDER[4] == "portfolio" && LADDER[5] == "founding" && LADDER[6] == "internal";
  }

  // What a first delivery that goes through leaves on its user's row. A checkout
  // buys its plan; an update moves the paid-through date to the period's end,
  // mirrors the status but calls a cancellation at period end canceled, and puts a
  // healthy subscription back on its plan; a deletion cancels, and only ever
  // extends the date.
  lemma EventLeaves(isUuid: string -> bool, s: State, e: Event)
    requires e.id != "" && e.id !in s.processed && !e.breaks && Target(isUuid, s.users, e.payload).Some?
    ensures var i := Target(isUuid, s.users, e.payload).value;
            var u, v, p := s.users[i], Handled(isUuid, s, e).users[i], e.payload;
            && v.id == u.id
            && (e.kind == CheckoutCompleted && PlanFrom(p).Some? ==>
                  && Some(v.tier) == PlanFrom(p) && v.status == Some("active")
                  && (p.periodEnd.Some? ==> v.tierUntil == p.periodEnd)
                  && (p.periodEnd.None? && p.fetched.Some? ==> v.tierUntil == p.fetched)
                  && (p.periodEnd.None? && p.fetched.None? ==> v.tierUntil == u.tierUntil)
                  && (u.customer in {None, Some("")} && p.customer !in {None, Some("")} ==> v.customer == p.customer)
                  && (u.customer !in {None, Some("")} || p.customer in {None, Some("")} ==> v.customer == u.customer))
            && (e.kind == SubscriptionUpdated ==>
                  && v.customer == u.customer
                  && (p.periodEnd.Some? ==> v.tierUntil == p.periodEnd)
                  && (p.periodEnd.None? ==> v.tierUntil == u.tierUntil)
                  && (p.status == Some("active") && p.cancelAtPeriodEnd ==> v.status == Some("canceled"))
                  && (p.status !in {None, Some("")} && !(p.status == Some("active") && p.cancelAtPeriodEnd) ==>
                        v.status == p.status)
                  && (p.status in {None, Some("")} ==> v.status == u.status)
                  && (p.status == Some("active") && PlanFrom(p).Some? ==> Some(v.tier) == PlanFrom(p))
                  && (p.status != Some("active") || PlanFrom(p).None? ==> v.tier == u.tier))
            && (e.kind == SubscriptionDeleted ==>
                  && v.customer == u.customer && v.tier == u.tier && v.status == Some("canceled")
                  && (p.periodEnd.None? ==> v.tierUntil == u.tierUntil)
                  && (p.periodEnd.Some? ==>
                        v.tierUntil.Some? && v.tierUntil.value >= p.periodEnd.value
                        && (v.tierUntil == p.periodEnd || v.tierUntil == u.tierUntil)
                        && (u.tierUntil.Some? ==> v.tierUntil.value >= u.tierUntil.value)))
  {
  }

  // The plan an account is on: a granted one as long as it is stored, a bought one
  // until its date has passed, and free otherwise; nobody, or a database that
  // cannot be read, is never held up.
  lemma PlanExactly(u: User, now: int)
    ensures var name := Lower(Strip(u.tier));
            PlanFor(Known(u), now) ==
            if name in {"founding", "internal"} then name
            else if name in {"early_access", "solo", "team", "portfolio"}
                    && !(u.tierUntil.Some? && u.tierUntil.value < now) then name
            else "free"
    ensures PlanFor(Nobody, now) == PlanFor(Unreadable, now) == "internal" && PlanFor(Unknown, now) == "free"
  {
    KnownNames();
    PlanFromExactly(Payload(None, None, None, None, None, None, None, false), Lower(Strip(u.tier)));
    assert Strip("") == "";
  }

  // ---- redelivery ----

  function FirstDeliveries(es: seq<Event>): seq<Event> {
    if es == [] then []
    else
      var n := |es| - 1;
      FirstDeliveries(es[..n]) + if exists i :: 0 <= i < n && es[i].id == es[n].id then [] else [es[n]]
  }

  lemma {:induction false} ProcessedIds(isUuid: string -> bool, s: State, es: seq<Event>)
    ensures Processed(isUuid, s, es).processed == s.processed + set e | e in es && e.id != "" :: e.id
  {
    if es != [] {
      var n := |es| - 1;
      ProcessedIds(isUuid, s, es[..n]);
      assert es == es[..n] + [es[n]];
    }
  }

  // However often events are redelivered, and whatever the redeliveries say,
  // the rows are those of the first delivery of each event.
  lemma {:induction false} RedeliveryIsHarmless(isUuid: string -> bool, s: State, es: seq<Event>)
    ensures Processed(isUuid, s, es) == Processed(isUuid, s, FirstDeliveries(es))
  {
    if es != [] {
      var n := |es| - 1;
      var e := es[n];
      RedeliveryIsHarmless(isUuid, s, es[..n]);
      ProcessedIds(isUuid, s, es[..n]);
      var before := FirstDeliveries(es[..n]);
      if i :| 0 <= i < n && es[i].id == e.id {
        assert es[..n][i] in es[..n];
        assert before + [] == before;
      } else {
        assert (before + [e])[..|before|] == before;
      }
    }
  }

  // The first delivery of an event decides the rows; no later delivery of it is
  // heard, whatever it says.
  lemma {:induction false} FirstDeliveryDecides(isUuid: string -> bool, s: State, e: Event, more: seq<Event>)
    requires e.id != "" && e.id !in s.processed && forall m :: m in more ==> m.id == e.id
    ensures Processed(isUuid, s, [e] + more).users == UsersAfter(isUuid, s.users, e)
  {
    if more == [] {
      assert [e] + more == [e] && [e][..0] == [];
      assert Processed(isUuid, s, [e]) == Handled(isUuid, Processed(isUuid, s, []), e);
    } else {
      var n := |more| - 1;
      assert ([e] + more)[..n + 1] == [e] + more[..n];
      FirstDeliveryDecides(isUuid, s, e, more[..n]);
      ProcessedIds(isUuid, s, [e] + more[..n]);
      assert e in [e] + more[..n] && more[n] in more;
    }
  }

  // The row already says everything the checkout would write on it.
  predicate Repeats(u: User, p: Payload) {
    var end := if p.periodEnd.Some? then p.periodEnd else p.fetched;
    && PlanFrom(p) == Some(u.tier) && u.status == Some("active")
    && (end.Some? ==> u.tierUntil == end) && (Filled(p.customer) ==> Filled(u.customer))
  }

  lemma OnCheckoutIsIdle(u: User, p: Payload)
    ensures OnCheckout(u, p) == u <==> PlanFrom(p).None? || Repeats(u, p)
  {
  }

  // An event's id is committed before its row is, so what its first delivery did
  // not do is never done: the event leaves no trace, however often it is
  // redelivered, exactly when that delivery raised, found nobody, or had nothing
  // to write. A checkout has nothing to write without a usable plan, or when the
  // row says it all already.
  lemma FailedDeliveryIsFinal(isUuid: string -> bool, s: State, e: Event, more: seq<Event>)
    requires e.id != "" && e.id !in s.processed && !e.kind.Other? && forall m :: m in more ==> m.id == e.id
    ensures var i := Target(isUuid, s.users, e.payload);
            && (Processed(isUuid, s, [e] + more).users == s.users <==>
                e.breaks || i.None? || On(e.kind, s.users[i.value], e.payload) == s.users[i.value])
            && (e.kind.CheckoutCompleted? && !e.breaks && i.Some? ==>
                  (Processed(isUuid, s, [e] + more).users == s.users <==>
                   PlanFrom(e.payload).None? || Repeats(s.users[i.value], e.payload)))
  {
    FirstDeliveryDecides(isUuid, s, e, more);
    var i := Target(isUuid, s.users, e.payload);
    if i.Some? {
      OnCheckoutIsIdle(s.users[i.value], e.payload);
    }
  }

  // ---- deliveries that interleave ----

  // A delivery commits its id first and writes its row later, if it gets there.
  datatype Act = Mark(event: Event) | Write(id: string)

  // First deliveries between their two steps wait under their id.
  datatype Flight = Flight(state: State, waiting: map<string, Event>)

  function Acted(isUuid: string -> bool, f: Flight, a: Act): Flight {
    match a
    case Mark(e) =>
      if e.id == "" || e.id in f.state.processed then f
      else Flight(State(f.state.users, f.state.processed + {e.id}), f.waiting[e.id := e])
    case Write(id) =>
      if id !in f.waiting then f
      else Flight(f.state.(users := UsersAfter(isUuid, f.state.users, f.waiting[id])), f.waiting - {id})
  }

  function ActedAll(isUuid: string -> bool, s: State, acts: seq<Act>): Flight {
    if acts == [] then Flight(s, map[]) else Acted(isUuid, ActedAll(isUuid, s, acts[..|acts| - 1]), acts[|acts| - 1])
  }

  function WrittenBy(f: Flight, a: Act): seq<Event> {
    if a.Write? && a.id in f.waiting then [f.waiting[a.id]] else []
  }

  // The events whose rows were written, in the order of the writing.
  function Written(isUuid: string -> bool, s: State, acts: seq<Act>): seq<Event> {
    if acts == [] then []
    else
      var n := |acts| - 1;
      Written(isUuid, s, acts[..n]) + WrittenBy(ActedAll(isUuid, s, acts[..n]), acts[n])
  }

  // The interleaved state is the serial one, but for ids marked and not written.
  ghost predicate Serial(f: Flight, serial: State) {
    && f.state.users == serial.users && f.state.processed == serial.processed + f.waiting.Keys
    && f.waiting.Keys !! serial.processed
    && forall id :: id in f.waiting ==> f.waiting[id].id == id && id != ""
  }

  lemma ActIsSerial(isUuid: string -> bool, f: Flight, serial: State, a: Act)
    requires Serial(f, serial)
    ensures Serial(Acted(isUuid, f, a), Processed(isUuid, serial, WrittenBy(f, a)))
  {
    if a.Write? && a.id in f.waiting {
      var e := f.waiting[a.id];
      assert [e][..0] == [] && Processed(isUuid, serial, [e]) == Handled(isUuid, serial, e);
    }
  }

  lemma {:induction false} ProcessedConcat(isUuid: string -> bool, s: State, a: seq<Event>, b: seq<Event>)
    ensures Processed(isUuid, s, a + b) == Processed(isUuid, Processed(isUuid, s, a), b)
  {
    if b == [] {
      assert a + b == a;
    } else {
      assert (a + b)[..|a + b| - 1] == a + b[..|b| - 1];
      ProcessedConcat(isUuid, s, a, b[..|b| - 1]);
    }
  }

  // However deliveries interleave, the rows are those of handling the written
  // events one after another in the order of their writing; an event marked and
  // never written is the one that raised in between.
  lemma {:induction false} InterleavingIsSerial(isUuid: string -> bool, s: State, acts: seq<Act>)
    ensures Serial(ActedAll(isUuid, s, acts), Processed(isUuid, s, Written(isUuid, s, acts)))
  {
    if acts != [] {
      var n := |acts| - 1;
      var f, order := ActedAll(isUuid, s, acts[..n]), Written(isUuid, s, acts[..n]);
      InterleavingIsSerial(isUuid, s, acts[..n]);
      ActIsSerial(isUuid, f, Processed(isUuid, s, order), acts[n]);
      ProcessedConcat(isUuid, s, order, WrittenBy(f, acts[n]));
    }
  }

  // ---- what no event can do ----

  // Any event touches at most one row, keeps its identity and a customer once
  // set, and moves its tier only to a plan on the ladder; a deletion also keeps
  // the tier and never shortens the paid-through date.
  lemma EventsAreContained(isUuid: string -> bool, s: State, e: Event, i: int)
    requires 0 <= i < |s.users|
    ensures var after := Handled(isUuid, s, e);
            && |after.users| == |s.users|
            && var u, v := s.users[i], after.users[i];
               && v.id == u.id
               && (Filled(u.customer) ==> v.customer == u.customer)
               && (v.tier != u.tier ==> v.tier in LADDER && PlanFrom(e.payload) == Some(v.tier))
               && (v != u ==> Target(isUuid, s.users, e.payload) == Some(i) && e.id !in s.processed)
               && (e.kind.SubscriptionDeleted? ==>
                     v.tier == u.tier && (u.tierUntil.Some? ==>
                       v.tierUntil.Some? && v.tierUntil.value >= u.tierUntil.value))
  {
  }

  // ---- persisting a lapse ----

  // Persisting a lapse writes the tier and nothing else, exactly for a stored tier
  // that is not spelled as a granted one and whose date has passed.
  lemma ExpiryExactly(u: User, now: int)
    ensures var v := Expired(u, now);
            var lapsed := u.tier !in {"free", "founding", "internal"} && u.tierUntil.Some? && u.tierUntil.value < now;
            && v.id == u.id && v.tierUntil == u.tierUntil && v.status == u.status && v.customer == u.customer
            && v.tier == (if lapsed then "free" else u.tier)
  {
  }

  // Writing a lapse down changes a plan answer, now or later, exactly when the
  // stored tier spells a granted plan in a way the raw comparison misses.
  lemma ExpiryChangesPlanExactlyWhen(u: User, now: int, later: int)
    requires now <= later
    ensures PlanFor(Known(Expired(u, now)), later) != PlanFor(Known(u), later) <==>
            && u.tier !in {"free", "founding", "internal"} && u.tierUntil.Some? && u.tierUntil.value < now
            && Lower(Strip(u.tier)) in {"founding", "internal"}
  {
    KnownNames();
    if Lapsed(u, now) {
      assert PlanFor(Known(Expired(u, now)), later) == "free";
    }
  }

  // For a normalised tier it changes nothing.
  lemma NormalisedExpiryIsInvisible(u: User, now: int, later: int)
    requires now <= later && Normalise(u.tier) == u.tier
    ensures PlanFor(Known(Expired(u, now)), later) == PlanFor(Known(u), later)
  {
    ExpiryChangesPlanExactlyWhen(u, now, later);
  }

  lemma LapsedGrant(u: User, now: int)
    requires Lapsed(u, now) && Normalise(u.tier) == "founding" && u.tier != ""
    ensures PlanFor(Known(u), now) == "founding" && PlanFor(Known(Expired(u, now)), now) == "free"
  {
    KnownNames();
  }

  lemma CapitalFounding()
    ensures Normalise("Founding") == "founding" && "Founding" !in GRANTS
  {
    assert LeftStrip("Founding") == "Founding" && RightStrip("Founding") == "Founding";
    assert Lower("Founding") == "founding";
    assert "Founding"[0] == 'F';
  }

  // A granted account with a capital letter loses its plan to the expiry.
  lemma ExpiryCanRevokeAGrant(id: Id, now: int)
    ensures var u := User(id, "Founding", Some(now - 1), None, None);
            PlanFor(Known(u), now) == "founding" && PlanFor(Known(Expired(u, now)), now) == "free"
  {
    CapitalFounding();
    LapsedGrant(User(id, "Founding", Some(now - 1), None, None), now);
  }
}
