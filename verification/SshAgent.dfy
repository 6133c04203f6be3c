/** The SSH agent: keys lent by an open vault, a question before each use, and
    agreements kept for ten minutes. Each step takes one lock; between two
    steps of a request anything may happen. */
module SshAgent {
  import opened Wrappers
  import opened Seqs
  import opened Text

  type Bytes = seq<byte>

  /** Seconds. */
  const REMEMBER_FOR := 600

  datatype Key = Key(id: string, blob: Bytes)

  /** Where a request to sign is. */
  datatype Phase =
    | Looked                     // its key was found
    | Asking(forwarded: bool)    // the user is asked
    | Remembering                // allowed, the agreement not kept yet
    | Allowed

  datatype Flight = Flight(session: nat, id: string, blob: Bytes, phase: Phase)

  datatype Signature = Signature(request: nat, id: string, blob: Bytes)

  datatype State = State(
    keys: seq<Key>,
    remembered: map<string, nat>,
    clock: nat,
    bindings: map<nat, seq<bool>>,     // by session: which hops are forwarded
    flights: map<nat, Flight>,
    seen: set<nat>,
    signed: seq<Signature>)

  const START := State([], map[], 0, map[], map[], {}, [])

  /** What may happen. A step that is not due changes nothing. */
  datatype Event =
    | Replace(keys: seq<Key>)          // `set_keys`, first lock
    | Forget                           // `set_keys`, second lock
    | Tick(seconds: nat)
    | Bind(session: nat, forwarding: bool)
    | Start(request: nat, session: nat, blob: Bytes)
    | Check(request: nat)
    | Answer(request: nat, allow: bool, remember: bool)   // a timeout answers no
    | Insert(request: nat)
    | Sign(request: nat)

  // ---- what is under each lock ------------------------------------------------------------

  function WithBlob(keys: seq<Key>, blob: Bytes): (r: Option<Key>)
    ensures r.Some? ==> r.value in keys && r.value.blob == blob
    ensures r.None? ==> forall k :: k in keys ==> k.blob != blob
  {
    if keys == [] then None else if keys[0].blob == blob then Some(keys[0]) else WithBlob(keys[1..], blob)
  }

  function WithId(keys: seq<Key>, id: string): (r: Option<Key>)
    ensures r.Some? ==> r.value in keys && r.value.id == id
    ensures r.None? ==> forall k :: k in keys ==> k.id != id
  {
    if keys == [] then None else if keys[0].id == id then Some(keys[0]) else WithId(keys[1..], id)
  }

  predicate Recalls(remembered: map<string, nat>, id: string, now: nat) { id in remembered && now < remembered[id] }

  predicate Forwarded(bindings: map<nat, seq<bool>>, session: nat) { session in bindings && true in bindings[session] }

  predicate Busy(flights: map<nat, Flight>, session: nat) { exists r :: r in flights && flights[r].session == session }

  // ---- one step ---------------------------------------------------------------------------

  function Move(st: State, r: nat, phase: Phase): State
    requires r in st.flights
  {
    st.(flights := st.flights[r := st.flights[r].(phase := phase)])
  }

  function Drop(st: State, r: nat): State { st.(flights := st.flights - {r}) }

  predicate At(st: State, r: nat, phase: Phase) { r in st.flights && st.flights[r].phase == phase }

  function Step(st: State, e: Event): State {
    match e
    case Replace(keys) => st.(keys := keys)
    case Forget => st.(remembered := map[])
    case Tick(d) => st.(clock := st.clock + d)
    case Bind(s, forwarding) =>
      if Busy(st.flights, s) then st
      else st.(bindings := st.bindings[s := (if s in st.bindings then st.bindings[s] else []) + [forwarding]])
    case Start(r, s, blob) =>
      var key := WithBlob(st.keys, blob);
      if r in st.seen || Busy(st.flights, s) then st
      else if key.None? then st.(seen := st.seen + {r})
      else st.(seen := st.seen + {r}, flights := st.flights[r := Flight(s, key.value.id, blob, Looked)])
    case Check(r) =>
      if !At(st, r, Looked) then st
      else
        var forwarded := Forwarded(st.bindings, st.flights[r].session);
        if Recalls(st.remembered, st.flights[r].id, st.clock) && !forwarded then Move(st, r, Allowed)
        else Move(st, r, Asking(forwarded))
    case Answer(r, allow, remember) =>
      if r !in st.flights || !st.flights[r].phase.Asking? then st
      else if !allow then Drop(st, r)
      else if remember && !st.flights[r].phase.forwarded then Move(st, r, Remembering)
      else Move(st, r, Allowed)
    case Insert(r) =>
      if !At(st, r, Remembering) then st
      else Move(st.(remembered := st.remembered[st.flights[r].id := st.clock + REMEMBER_FOR]), r, Allowed)
    case Sign(r) =>
      if !At(st, r, Allowed) then st
      else
        var key := WithId(st.keys, st.flights[r].id);
        if key.None? then Drop(st, r)
        else Drop(st, r).(signed := st.signed + [Signature(r, key.value.id, key.value.blob)])
  }

  function Run(events: seq<Event>): State {
    if events == [] then START else Step(Run(events[..|events| - 1]), events[|events| - 1])
  }

  lemma RunOneMore(events: seq<Event>, e: Event)
    ensures Run(events + [e]) == Step(Run(events), e)
  {
    assert (events + [e])[..|events|] == events;
  }

  lemma RunAt(events: seq<Event>, k: nat)
    requires k < |events|
    ensures Run(events[..k + 1]) == Step(Run(events[..k]), events[k])
  {
    assert events[..k + 1][..k] == events[..k];
  }

  lemma TwoMore(events: seq<Event>, e: Event, e': Event)
    ensures Run(events + [e, e']) == Step(Step(Run(events), e), e')
  {
    assert events + [e, e'] == (events + [e]) + [e'];
    RunOneMore(events, e);
    RunOneMore(events + [e], e');
  }

  // ---- what the state remembers of the events ------------------------------------------------

  /** The seconds that passed. */
  function Elapsed(events: seq<Event>): nat {
    if events == [] then 0
    else Elapsed(events[..|events| - 1]) + match events[|events| - 1] case Tick(seconds) => seconds case _ => 0
  }

  /** The client of session `s` announced a forwarding hop; a binding comes
      between two requests of its session. */
  ghost predicate Announced(events: seq<Event>, s: nat) {
    exists j :: 0 <= j < |events| && events[j] == Bind(s, true) && !Busy(Run(events[..j]).flights, s)
  }

  ghost predicate Started(events: seq<Event>, r: nat, s: nat, blob: Bytes) {
    exists j :: 0 <= j < |events| && events[j] == Start(r, s, blob)
  }

  lemma {:induction false} ClockIsElapsed(events: seq<Event>)
    ensures Run(events).clock == Elapsed(events)
  {
    if events != [] {
      ClockIsElapsed(events[..|events| - 1]);
    }
  }

  lemma AnnouncedOneMore(events: seq<Event>, e: Event, s: nat)
    ensures Announced(events + [e], s) <==> Announced(events, s) || (e == Bind(s, true) && !Busy(Run(events).flights, s))
  {
    var all := events + [e];
    assert all[|events|] == e && all[..|events|] == events;
    forall j | 0 <= j < |events| ensures all[j] == events[j] && all[..j] == events[..j] {}
  }

  /** One forwarding hop, ever: whatever bindings came before or after it. */
  lemma {:induction false} ForwardedExactly(events: seq<Event>, s: nat)
    ensures Forwarded(Run(events).bindings, s) <==> Announced(events, s)
  {
    if events != [] {
      var front, e := events[..|events| - 1], events[|events| - 1];
      assert events == front + [e];
      ForwardedExactly(front, s);
      AnnouncedOneMore(front, e, s);
      BindStep(Run(front), e, s);
    }
  }

  lemma BindStep(st: State, e: Event, s: nat)
    ensures Forwarded(Step(st, e).bindings, s) <==> Forwarded(st.bindings, s) || (e == Bind(s, true) && !Busy(st.flights, s))
  {
    if e.Bind? && e.session == s && !Busy(st.flights, s) {
      var before := if s in st.bindings then st.bindings[s] else [];
      assert Step(st, e).bindings[s] == before + [e.forwarding];
    }
  }

  lemma {:induction false} FlightWasStarted(events: seq<Event>, r: nat)
    requires r in Run(events).flights
    ensures Started(events, r, Run(events).flights[r].session, Run(events).flights[r].blob)
  {
    var front, e := events[..|events| - 1], events[|events| - 1];
    var f := Run(events).flights[r];
    SameStart(Run(front), e, r);
    if r in Run(front).flights && Run(front).flights[r].session == f.session && Run(front).flights[r].blob == f.blob {
      FlightWasStarted(front, r);
      var j :| 0 <= j < |front| && front[j] == Start(r, f.session, f.blob);
      assert events[j] == front[j];
    }
  }

  lemma SameStart(st: State, e: Event, r: nat)
    requires r in Step(st, e).flights
    ensures var f := Step(st, e).flights[r];
            e == Start(r, f.session, f.blob)
            || (r in st.flights && st.flights[r].session == f.session && st.flights[r].blob == f.blob)
  {}

  // ---- consent ------------------------------------------------------------------------------

  /** At step `a` the user, asked about key `id` for request `r`, said yes. */
  ghost predicate Granted(events: seq<Event>, a: nat, r: nat, id: string, remember: bool) {
    && a < |events| && events[a] == Answer(r, true, remember)
    && var st := Run(events[..a]); r in st.flights && st.flights[r].phase.Asking? && st.flights[r].id == id
  }

  /** For this very request. */
  ghost predicate GrantedNow(events: seq<Event>, r: nat, id: string) {
    exists a: nat, remember :: Granted(events, a, r, id, remember)
  }

  /** At step `p` an agreement about `id`, given at `a` for request `r` of a
      session that is not forwarded, was kept. */
  ghost predicate Kept(events: seq<Event>, p: nat, a: nat, r: nat, id: string) {
    && a < p < |events| && events[p] == Insert(r) && Granted(events, a, r, id, true)
    && var st := Run(events[..p]);
       At(st, r, Remembering) && st.flights[r].id == id && !Announced(events[..p], st.flights[r].session)
  }

  ghost predicate NotForgotten(events: seq<Event>, p: nat) {
    forall j :: p <= j < |events| ==> events[j] != Forget
  }

  /** There is an agreement about `id`, not forgotten since it was kept, good
      until `until`, ten minutes after. */
  ghost predicate Agreed(events: seq<Event>, id: string, until: nat) {
    exists p: nat, a: nat, r: nat :: Kept(events, p, a, r, id) && NotForgotten(events, p) && until == Elapsed(events[..p]) + 600
  }

  /** Request `r` of a session that is not forwarded was checked while there
      was such an agreement, not expired. */
  ghost predicate RecalledAt(events: seq<Event>, c: nat, r: nat, id: string) {
    && c < |events| && events[c] == Check(r)
    && var st := Run(events[..c]);
       && At(st, r, Looked) && st.flights[r].id == id && !Announced(events[..c], st.flights[r].session)
       && exists until :: Agreed(events[..c], id, until) && Elapsed(events[..c]) < until
  }

  ghost predicate Recalled(events: seq<Event>, r: nat, id: string) { exists c: nat :: RecalledAt(events, c, r, id) }

  // ---- evidence carried along a run ------------------------------------------------------------

  ghost predicate FlightEvidence(events: seq<Event>, st: State, r: nat)
    requires r in st.flights
  {
    var f := st.flights[r];
    var forwarded := Forwarded(st.bindings, f.session);
    match f.phase
    case Looked => true
    case Asking(fwd) => fwd == forwarded
    case Remembering => !forwarded && exists a: nat :: Granted(events, a, r, f.id, true)
    case Allowed => GrantedNow(events, r, f.id) || (!forwarded && Recalled(events, r, f.id))
  }

  ghost predicate Evidence(events: seq<Event>) {
    var st := Run(events);
    && (forall r :: r in st.flights ==> r in st.seen && FlightEvidence(events, st, r))
    && (forall id :: id in st.remembered ==> Agreed(events, id, st.remembered[id]))
  }

  lemma GrantedStays(events: seq<Event>, e: Event, a: nat, r: nat, id: string, remember: bool)
    requires Granted(events, a, r, id, remember)
    ensures Granted(events + [e], a, r, id, remember)
  {
    assert (events + [e])[..a] == events[..a];
  }

  lemma GrantedNowStays(events: seq<Event>, e: Event, r: nat, id: string)
    requires GrantedNow(events, r, id)
    ensures GrantedNow(events + [e], r, id)
  {
    var a: nat, remember :| Granted(events, a, r, id, remember);
    GrantedStays(events, e, a, r, id, remember);
  }

  lemma AgreedStays(events: seq<Event>, e: Event, id: string, until: nat)
    requires Agreed(events, id, until) && e != Forget
    ensures Agreed(events + [e], id, until)
  {
    var p: nat, a: nat, r: nat :| Kept(events, p, a, r, id) && NotForgotten(events, p) && until == Elapsed(events[..p]) + 600;
    GrantedStays(events, e, a, r, id, true);
    assert (events + [e])[..p] == events[..p];
    assert Kept(events + [e], p, a, r, id);
  }

  lemma RecalledStays(events: seq<Event>, e: Event, r: nat, id: string)
    requires Recalled(events, r, id)
    ensures Recalled(events + [e], r, id)
  {
    var c: nat :| RecalledAt(events, c, r, id);
    assert (events + [e])[..c] == events[..c];
    assert RecalledAt(events + [e], c, r, id);
  }

  /** A request that does not move keeps its evidence. */
  lemma FlightStays(events: seq<Event>, e: Event, st: State, st': State, r: nat)
    requires r in st.flights && FlightEvidence(events, st, r)
    requires r in st'.flights && st'.flights[r] == st.flights[r]
    requires Forwarded(st'.bindings, st.flights[r].session) == Forwarded(st.bindings, st.flights[r].session)
    ensures FlightEvidence(events + [e], st', r)
  {
    var f := st.flights[r];
    if f.phase == Remembering {
      var a: nat :| Granted(events, a, r, f.id, true);
      GrantedStays(events, e, a, r, f.id, true);
    } else if f.phase == Allowed {
      if GrantedNow(events, r, f.id) {
        GrantedNowStays(events, e, r, f.id);
      } else {
        RecalledStays(events, e, r, f.id);
      }
    }
  }

  /** Binding a session that has no request in flight changes nothing for the
      others. */
  lemma BindingsKept(st: State, e: Event, r: nat)
    requires r in st.flights
    ensures Forwarded(Step(st, e).bindings, st.flights[r].session) == Forwarded(st.bindings, st.flights[r].session)
  {
    if e.Bind? {
      assert Busy(st.flights, st.flights[r].session);
    }
  }

  /** The request that an event moves. */
  function Moved(e: Event): Option<nat> {
    match e
    case Check(r) => Some(r)
    case Answer(r, _, _) => Some(r)
    case Insert(r) => Some(r)
    case Sign(r) => Some(r)
    case Start(r, _, _) => Some(r)
    case _ => None
  }

  lemma OthersStay(st: State, e: Event, r: nat)
    requires Moved(e) != Some(r)
    ensures r in Step(st, e).flights <==> r in st.flights
    ensures r in st.flights ==> Step(st, e).flights[r] == st.flights[r]
  {}

  lemma CheckMoves(st: State, r: nat)
    requires At(st, r, Looked)
    ensures var forwarded := Forwarded(st.bindings, st.flights[r].session);
            Step(st, Check(r))
            == Move(st, r, if Recalls(st.remembered, st.flights[r].id, st.clock) && !forwarded then Allowed else Asking(forwarded))
  {}

  lemma CheckLeaves(events: seq<Event>, r: nat)
    requires At(Run(events), r, Looked)
    requires forall id :: id in Run(events).remembered ==> Agreed(events, id, Run(events).remembered[id])
    ensures FlightEvidence(events + [Check(r)], Step(Run(events), Check(r)), r)
  {
    var st := Run(events);
    var id := st.flights[r].id;
    var forwarded := Forwarded(st.bindings, st.flights[r].session);
    CheckMoves(st, r);
    if Recalls(st.remembered, id, st.clock) && !forwarded {
      RecalledNow(events, r, st.remembered[id]);
      AllowedByAgreement(events + [Check(r)], Move(st, r, Allowed), r);
    } else {
      AskingNow(events + [Check(r)], Move(st, r, Asking(forwarded)), r);
    }
  }

  lemma AllowedByAgreement(events: seq<Event>, st: State, r: nat)
    requires At(st, r, Allowed) && !Forwarded(st.bindings, st.flights[r].session) && Recalled(events, r, st.flights[r].id)
    ensures FlightEvidence(events, st, r)
  {}

  lemma AskingNow(events: seq<Event>, st: State, r: nat)
    requires r in st.flights && st.flights[r].phase == Asking(Forwarded(st.bindings, st.flights[r].session))
    ensures FlightEvidence(events, st, r)
  {}

  lemma RecalledNow(events: seq<Event>, r: nat, until: nat)
    requires At(Run(events), r, Looked) && !Forwarded(Run(events).bindings, Run(events).flights[r].session)
    requires Agreed(events, Run(events).flights[r].id, until) && Run(events).clock < until
    ensures Recalled(events + [Check(r)], r, Run(events).flights[r].id)
  {
    var all := events + [Check(r)];
    ForwardedExactly(events, Run(events).flights[r].session);
    ClockIsElapsed(events);
    assert all[|events|] == Check(r) && all[..|events|] == events;
    assert RecalledAt(all, |events|, r, Run(events).flights[r].id);
  }

  lemma AnswerLeaves(events: seq<Event>, r: nat, remember: bool)
    requires r in Run(events).flights && Run(events).flights[r].phase.Asking? && FlightEvidence(events, Run(events), r)
    ensures FlightEvidence(events + [Answer(r, true, remember)], Step(Run(events), Answer(r, true, remember)), r)
  {
    var all := events + [Answer(r, true, remember)];
    assert all[|events|] == Answer(r, true, remember) && all[..|events|] == events;
    assert Granted(all, |events|, r, Run(events).flights[r].id, remember);
  }

  lemma InsertLeaves(events: seq<Event>, r: nat)
    requires At(Run(events), r, Remembering) && FlightEvidence(events, Run(events), r)
    ensures FlightEvidence(events + [Insert(r)], Step(Run(events), Insert(r)), r)
  {
    var id := Run(events).flights[r].id;
    var a: nat :| Granted(events, a, r, id, true);
    GrantedStays(events, Insert(r), a, r, id, true);
  }

  /** How a request can move and still be in flight. */
  lemma Moves(st: State, e: Event, r: nat)
    requires Moved(e) == Some(r) && r in Step(st, e).flights
    ensures (r in st.flights && Step(st, e).flights[r] == st.flights[r])
            || Step(st, e).flights[r].phase == Looked
            || (e == Check(r) && At(st, r, Looked))
            || (e.Answer? && e == Answer(r, true, e.remember) && r in st.flights && st.flights[r].phase.Asking?)
            || (e == Insert(r) && At(st, r, Remembering))
  {}

  /** What each move leaves behind. */
  lemma MoverHasEvidence(events: seq<Event>, e: Event, r: nat)
    requires Evidence(events) && Moved(e) == Some(r) && r in Step(Run(events), e).flights
    ensures FlightEvidence(events + [e], Step(Run(events), e), r)
  {
    var st := Run(events);
    Moves(st, e, r);
    if r in st.flights && Step(st, e).flights[r] == st.flights[r] {
      BindingsKept(st, e, r);
      FlightStays(events, e, st, Step(st, e), r);
    } else if e == Check(r) {
      CheckLeaves(events, r);
    } else if e.Answer? {
      AnswerLeaves(events, r, e.remember);
    } else if e == Insert(r) {
      InsertLeaves(events, r);
    }
  }

  lemma JustKept(events: seq<Event>, r: nat)
    requires Evidence(events) && At(Run(events), r, Remembering)
    ensures var st := Run(events); Agreed(events + [Insert(r)], st.flights[r].id, st.clock + REMEMBER_FOR)
  {
    var st, all := Run(events), events + [Insert(r)];
    var id := st.flights[r].id;
    assert all[|events|] == Insert(r) && all[..|events|] == events;
    assert FlightEvidence(events, st, r);
    var a: nat :| Granted(events, a, r, id, true);
    GrantedStays(events, Insert(r), a, r, id, true);
    ForwardedExactly(events, st.flights[r].session);
    ClockIsElapsed(events);
    assert Kept(all, |events|, a, r, id);
    assert NotForgotten(all, |events|);
  }

  lemma NewAgreements(st: State, e: Event, id: string)
    requires id in Step(st, e).remembered
    ensures e != Forget
    ensures (id in st.remembered && Step(st, e).remembered[id] == st.remembered[id])
            || (e.Insert? && At(st, e.request, Remembering) && st.flights[e.request].id == id
                && Step(st, e).remembered[id] == st.clock + REMEMBER_FOR)
  {}

  lemma AgreementsHaveEvidence(events: seq<Event>, e: Event, id: string)
    requires Evidence(events) && id in Step(Run(events), e).remembered
    ensures Agreed(events + [e], id, Step(Run(events), e).remembered[id])
  {
    var st := Run(events);
    NewAgreements(st, e, id);
    if id in st.remembered && Step(st, e).remembered[id] == st.remembered[id] {
      AgreedStays(events, e, id, st.remembered[id]);
    } else {
      JustKept(events, e.request);
    }
  }

  lemma FlightHasEvidence(events: seq<Event>, e: Event, r: nat)
    requires Evidence(events) && r in Step(Run(events), e).flights
    ensures r in Step(Run(events), e).seen && FlightEvidence(events + [e], Step(Run(events), e), r)
  {
    if Moved(e) == Some(r) {
      MoverHasEvidence(events, e, r);
    } else {
      OthersStay(Run(events), e, r);
      OtherHasEvidence(events, e, r);
    }
    SeenGrows(Run(events), e, r);
  }

  lemma OtherHasEvidence(events: seq<Event>, e: Event, r: nat)
    requires r in Run(events).flights && FlightEvidence(events, Run(events), r) && Moved(e) != Some(r)
    ensures r in Step(Run(events), e).flights && FlightEvidence(events + [e], Step(Run(events), e), r)
  {
    var st := Run(events);
    OthersStay(st, e, r);
    BindingsKept(st, e, r);
    FlightStays(events, e, st, Step(st, e), r);
  }

  lemma SeenGrows(st: State, e: Event, r: nat)
    requires (r in st.flights ==> r in st.seen) && r in Step(st, e).flights
    ensures r in Step(st, e).seen
  {}

  lemma EvidenceStep(events: seq<Event>, e: Event)
    requires Evidence(events)
    ensures Evidence(events + [e])
  {
    RunOneMore(events, e);
    var st' := Step(Run(events), e);
    forall r | r in st'.flights ensures r in st'.seen && FlightEvidence(events + [e], st', r) {
      FlightHasEvidence(events, e, r);
    }
    forall id | id in st'.remembered ensures Agreed(events + [e], id, st'.remembered[id]) {
      AgreementsHaveEvidence(events, e, id);
    }
  }

  lemma {:induction false} EvidenceAlways(events: seq<Event>)
    ensures Evidence(events)
  {
    if events != [] {
      EvidenceAlways(events[..|events| - 1]);
      EvidenceStep(events[..|events| - 1], events[|events| - 1]);
      assert events == events[..|events| - 1] + [events[|events| - 1]];
    }
  }

  /** The user is told that the session is forwarded exactly when it is. */
  lemma ToldOfForwarding(events: seq<Event>, r: nat)
    requires r in Run(events).flights && Run(events).flights[r].phase.Asking?
    ensures Run(events).flights[r].phase.forwarded <==> Announced(events, Run(events).flights[r].session)
  {
    EvidenceAlways(events);
    assert FlightEvidence(events, Run(events), r);
    ForwardedExactly(events, Run(events).flights[r].session);
  }

  /** No agreement is kept for a session whose client announced a forwarding hop. */
  lemma ForwardedKeepsNoAgreement(events: seq<Event>, r: nat)
    requires At(Run(events), r, Remembering)
    ensures !Announced(events, Run(events).flights[r].session)
  {
    EvidenceAlways(events);
    assert FlightEvidence(events, Run(events), r);
    ForwardedExactly(events, Run(events).flights[r].session);
  }

  /** Every agreement in memory was given by the user, for a session that was
      not forwarded; it was kept since the agreements were last forgotten, and
      ends ten minutes after it was kept. */
  lemma EveryAgreementWasGiven(events: seq<Event>, id: string)
    requires id in Run(events).remembered
    ensures Agreed(events, id, Run(events).remembered[id])
  {
    EvidenceAlways(events);
  }

  /** Request `r` was allowed and is past the question. */
  predicate Past(st: State, r: nat) {
    r in st.seen && (r in st.flights ==> st.flights[r].phase == Remembering || st.flights[r].phase == Allowed)
  }

  lemma PastStep(st: State, e: Event, r: nat)
    requires Past(st, r)
    ensures Past(Step(st, e), r)
    ensures At(st, r, Remembering) && e != Insert(r) ==> r in Step(st, e).flights && Step(st, e).flights[r] == st.flights[r]
    ensures !(At(st, r, Remembering) && e != Insert(r)) ==> !At(Step(st, e), r, Remembering)
  {
    if Moved(e) != Some(r) {
      OthersStay(st, e, r);
    }
  }

  predicate NoInsert(events: seq<Event>, i: nat, j: nat, r: nat)
    requires i <= j <= |events|
  {
    forall q :: i <= q < j ==> events[q] != Insert(r)
  }

  lemma NoInsertOneMore(events: seq<Event>, i: nat, j: nat, r: nat)
    requires i < j <= |events|
    ensures NoInsert(events, i, j, r) <==> NoInsert(events, i, j - 1, r) && events[j - 1] != Insert(r)
  {}

  /** From step `i` on, a request past the question waits to be remembered as
      long as it did, and until it is. */
  lemma {:induction false} RememberingUntil(events: seq<Event>, i: nat, j: nat, r: nat)
    requires i <= j <= |events| && Past(Run(events[..i]), r)
    ensures Past(Run(events[..j]), r)
    ensures At(Run(events[..j]), r, Remembering) <==> At(Run(events[..i]), r, Remembering) && NoInsert(events, i, j, r)
    ensures At(Run(events[..j]), r, Remembering) ==> Run(events[..j]).flights[r] == Run(events[..i]).flights[r]
  {
    if i < j {
      RememberingUntil(events, i, j - 1, r);
      RunAt(events, j - 1);
      PastStep(Run(events[..j - 1]), events[j - 1], r);
      NoInsertOneMore(events, i, j, r);
    }
  }

  lemma GrantedWaits(events: seq<Event>, a: nat, r: nat, id: string)
    requires Granted(events, a, r, id, true) && Run(events[..a]).flights[r].phase == Asking(false)
    ensures Past(Run(events[..a + 1]), r) && At(Run(events[..a + 1]), r, Remembering) && Run(events[..a + 1]).flights[r].id == id
  {
    EvidenceAlways(events[..a]);
    RunAt(events, a);
  }

  /** An agreement given before the agreements are forgotten at `f` is kept
      after that, exactly when the request had not kept it yet at `f`, and does
      later: between the two, it waits for the lock. */
  lemma SurvivesForgetting(events: seq<Event>, a: nat, r: nat, id: string, f: nat)
    requires Granted(events, a, r, id, true) && Run(events[..a]).flights[r].phase == Asking(false)
    requires a < f < |events| && events[f] == Forget
    ensures (exists p: nat :: f < p && Kept(events, p, a, r, id))
            <==> At(Run(events[..f]), r, Remembering) && exists p :: f < p < |events| && events[p] == Insert(r)
  {
    GrantedWaits(events, a, r, id);
    RememberingUntil(events, a + 1, f, r);
    if p: nat :| f < p && Kept(events, p, a, r, id) {
      RememberingUntil(events, f, p, r);
    }
    if At(Run(events[..f]), r, Remembering) && exists p :: f < p < |events| && events[p] == Insert(r) {
      var p :| f < p < |events| && events[p] == Insert(r);
      var q := FirstInsert(events, f, p, r);
      RememberingUntil(events, f, q, r);
      EvidenceAlways(events[..q]);
      assert FlightEvidence(events[..q], Run(events[..q]), r);
      ForwardedExactly(events[..q], Run(events[..q]).flights[r].session);
      assert Kept(events, q, a, r, id);
    }
  }

  function FirstInsert(events: seq<Event>, i: nat, p: nat, r: nat): (q: nat)
    requires i <= p < |events| && events[p] == Insert(r)
    ensures i <= q <= p && events[q] == Insert(r) && forall j :: i <= j < q ==> events[j] != Insert(r)
    decreases p - i
  {
    if events[i] == Insert(r) then i else FirstInsert(events, i + 1, p, r)
  }

  /** Then it serves the next request, which asks nothing. */
  lemma SurvivorServes(events: seq<Event>, r: nat, next: nat)
    requires At(Run(events), r, Remembering) && At(Run(events), next, Looked)
    requires Run(events).flights[next].id == Run(events).flights[r].id
    requires !Forwarded(Run(events).bindings, Run(events).flights[next].session)
    ensures At(Run(events + [Forget, Insert(r)] + [Check(next)]), next, Allowed)
  {
    var st := Run(events);
    TwoMore(events, Forget, Insert(r));
    RunOneMore(events + [Forget, Insert(r)], Check(next));
    var kept := Run(events + [Forget, Insert(r)]);
    assert kept.flights[next] == st.flights[next];
    assert Recalls(kept.remembered, kept.flights[next].id, kept.clock);
    CheckMoves(kept, next);
  }

  /** Two requests for one key, the first allowed for ten minutes. */
  function AllowedAndNext(key: Key): seq<Event> {
    [Replace([key]), Start(1, 0, key.blob)] + [Check(1), Answer(1, true, true)] + [Start(2, 1, key.blob)]
  }

  /** One request, for one key. */
  function One(keys: seq<Key>, key: Key, phase: Phase): State {
    START.(keys := keys, seen := {1}, flights := map[1 := Flight(0, key.id, key.blob, phase)])
  }

  lemma AllowedAndNextRun(key: Key)
    ensures At(Run(AllowedAndNext(key)), 1, Remembering) && At(Run(AllowedAndNext(key)), 2, Looked)
    ensures var st := Run(AllowedAndNext(key)); st.flights[2].id == st.flights[1].id && !Forwarded(st.bindings, st.flights[2].session)
  {
    assert WithBlob([key], key.blob) == Some(key);
    var start := [Replace([key]), Start(1, 0, key.blob)];
    var more := [Check(1), Answer(1, true, true)];
    assert [] + start == start;
    TwoMore([], Replace([key]), Start(1, 0, key.blob));
    assert Step(Step(START, Replace([key])), Start(1, 0, key.blob)) == One([key], key, Looked);
    TwoMore(start, Check(1), Answer(1, true, true));
    CheckAndAllow(key);
    RunOneMore(start + more, Start(2, 1, key.blob));
    assert !Busy(One([key], key, Remembering).flights, 1);
  }

  lemma ForgottenTooEarly(key: Key)
    ensures At(Run(AllowedAndNext(key) + [Forget, Insert(1)] + [Check(2)]), 2, Allowed)
  {
    AllowedAndNextRun(key);
    SurvivorServes(AllowedAndNext(key), 1, 2);
  }

  lemma CheckAndAllow(key: Key)
    ensures Step(Step(One([key], key, Looked), Check(1)), Answer(1, true, true)) == One([key], key, Remembering)
  {
    CheckMoves(One([key], key, Looked), 1);
    assert Move(One([key], key, Looked), 1, Asking(false)) == One([key], key, Asking(false));
    assert Move(One([key], key, Asking(false)), 1, Remembering) == One([key], key, Remembering);
  }

  // ---- each request once ---------------------------------------------------------------------

  /** One request in flight per session. */
  ghost predicate OneEach(st: State) {
    && (forall r :: r in st.flights ==> r in st.seen)
    && (forall r, q :: r in st.flights && q in st.flights && st.flights[r].session == st.flights[q].session ==> r == q)
  }

  /** Every request that has its signature is over. */
  ghost predicate SignedAreOver(st: State) {
    && (forall i :: 0 <= i < |st.signed| ==> st.signed[i].request in st.seen && st.signed[i].request !in st.flights)
    && (forall i, j :: 0 <= i < j < |st.signed| ==> st.signed[i].request != st.signed[j].request)
  }

  ghost predicate Ledger(st: State) { OneEach(st) && SignedAreOver(st) }

  lemma StepOneEach(st: State, e: Event)
    requires OneEach(st)
    ensures OneEach(Step(st, e))
  {}

  lemma NewFlight(st: State, e: Event, r: nat)
    requires r in Step(st, e).flights
    ensures r in st.flights || r !in st.seen
    ensures e != Sign(r) || r !in st.flights || st.flights[r].phase != Allowed
  {}

  lemma StepSigned(st: State, e: Event)
    requires Ledger(st)
    ensures SignedAreOver(Step(st, e))
  {
    SignatureStep(st, e);
    StepOneEach(st, e);
    forall i | 0 <= i < |Step(st, e).signed|
      ensures Step(st, e).signed[i].request in Step(st, e).seen && Step(st, e).signed[i].request !in Step(st, e).flights
    {
      SeenStays(st, e, Step(st, e).signed[i].request);
      if Step(st, e).signed[i].request in Step(st, e).flights {
        NewFlight(st, e, Step(st, e).signed[i].request);
      }
    }
  }

  lemma SeenStays(st: State, e: Event, r: nat)
    requires r in st.seen
    ensures r in Step(st, e).seen
  {}

  lemma StepLedger(st: State, e: Event)
    requires Ledger(st)
    ensures Ledger(Step(st, e))
  {
    StepOneEach(st, e);
    StepSigned(st, e);
  }

  lemma {:induction false} AlwaysLedger(events: seq<Event>)
    ensures Ledger(Run(events))
  {
    if events != [] {
      AlwaysLedger(events[..|events| - 1]);
      StepLedger(Run(events[..|events| - 1]), events[|events| - 1]);
    }
  }

  /** A request that is over is never taken up again. */
  ghost predicate Over(st: State, r: nat, signed: seq<Signature>) {
    r in st.seen && r !in st.flights && forall s :: s in st.signed && s.request == r ==> s in signed
  }

  lemma StepOver(st: State, e: Event, r: nat, signed: seq<Signature>)
    requires Over(st, r, signed)
    ensures Over(Step(st, e), r, signed)
  {}

  lemma {:induction false} StaysOver(events: seq<Event>, k: nat, r: nat, signed: seq<Signature>)
    requires k <= |events| && Over(Run(events[..k]), r, signed)
    ensures Over(Run(events), r, signed)
  {
    if k == |events| {
      assert events[..k] == events;
    } else {
      var front := events[..|events| - 1];
      assert front[..k] == events[..k];
      StaysOver(front, k, r, signed);
      StepOver(Run(front), events[|events| - 1], r, signed);
    }
  }

  /** A request the user refused is over: whatever comes next, it is not signed. */
  lemma RefusalIsFinal(events: seq<Event>, k: nat, r: nat, remember: bool)
    requires k < |events| && events[k] == Answer(r, false, remember)
    requires var st := Run(events[..k]); r in st.flights && st.flights[r].phase.Asking?
    ensures r !in Run(events).flights && forall s :: s in Run(events).signed ==> s.request != r
  {
    AlwaysLedger(events[..k]);
    RunAt(events, k);
    assert Over(Run(events[..k + 1]), r, []);
    StaysOver(events, k + 1, r, []);
  }

  /** A request gets one signature at most, and a session has one request in
      flight at most. */
  lemma OneSignatureEach(events: seq<Event>, i: nat, j: nat)
    requires i < j < |Run(events).signed|
    ensures Run(events).signed[i].request != Run(events).signed[j].request
  {
    AlwaysLedger(events);
  }

  lemma OneRequestASession(events: seq<Event>, r: nat, q: nat)
    requires r in Run(events).flights && q in Run(events).flights
    requires Run(events).flights[r].session == Run(events).flights[q].session
    ensures r == q
  {
    AlwaysLedger(events);
  }

  // ---- signatures ----------------------------------------------------------------------------

  /** At step `k` request `r` gets a signature under key `id`. */
  ghost predicate Signs(events: seq<Event>, k: nat, r: nat, id: string) {
    && k < |events| && events[k] == Sign(r)
    && var st := Run(events[..k]); At(st, r, Allowed) && st.flights[r].id == id && WithId(st.keys, id).Some?
  }

  /** No signature without consent: the user said yes for this request, or an
      agreement about that key was there, not expired nor forgotten since kept, when
      the request was checked. Once its client announced a forwarding hop, a
      session always asks. And the request was made, and the key is there. */
  lemma NoSignatureWithoutConsent(events: seq<Event>, k: nat, r: nat, id: string)
    requires Signs(events, k, r, id)
    ensures GrantedNow(events[..k], r, id) || Recalled(events[..k], r, id)
    ensures Announced(events[..k], Run(events[..k]).flights[r].session) ==> GrantedNow(events[..k], r, id)
    ensures Started(events[..k], r, Run(events[..k]).flights[r].session, Run(events[..k]).flights[r].blob)
    ensures exists key :: key in Run(events[..k]).keys && key.id == id
  {
    EvidenceAlways(events[..k]);
    assert FlightEvidence(events[..k], Run(events[..k]), r);
    ForwardedExactly(events[..k], Run(events[..k]).flights[r].session);
    FlightWasStarted(events[..k], r);
  }

  /** The signatures given are those, and no others. */
  lemma {:induction false} SignedOnlySo(events: seq<Event>, i: nat)
    requires i < |Run(events).signed|
    ensures exists k: nat :: SignedAt(events, k, Run(events).signed[i])
  {
    var front, e := events[..|events| - 1], events[|events| - 1];
    assert events == front + [e];
    var before := Run(front);
    SignatureStep(before, e);
    assert Run(events) == Step(before, e);
    if i < |before.signed| {
      assert Run(events).signed[i] == before.signed[i];
      SignedOnlySo(front, i);
      SignedStays(front, e, before.signed[i]);
    } else {
      var key := WithId(before.keys, before.flights[e.request].id).value;
      assert e == Sign(e.request);
      assert Run(events).signed[i] == Signature(e.request, key.id, key.blob);
      SignedNow(front, e.request);
    }
  }

  ghost predicate SignedAt(events: seq<Event>, k: nat, s: Signature) {
    Signs(events, k, s.request, s.id) && WithId(Run(events[..k]).keys, s.id) == Some(Key(s.id, s.blob))
  }

  lemma SignedStays(events: seq<Event>, e: Event, s: Signature)
    requires exists k: nat :: SignedAt(events, k, s)
    ensures exists k: nat :: SignedAt(events + [e], k, s)
  {
    var k: nat :| SignedAt(events, k, s);
    assert (events + [e])[..k] == events[..k];
    assert SignedAt(events + [e], k, s);
  }

  lemma SignedNow(events: seq<Event>, r: nat)
    requires At(Run(events), r, Allowed) && WithId(Run(events).keys, Run(events).flights[r].id).Some?
    ensures var key := WithId(Run(events).keys, Run(events).flights[r].id).value;
            exists k: nat :: SignedAt(events + [Sign(r)], k, Signature(r, key.id, key.blob))
  {
    var key := WithId(Run(events).keys, Run(events).flights[r].id).value;
    assert (events + [Sign(r)])[..|events|] == events;
    assert SignedAt(events + [Sign(r)], |events|, Signature(r, key.id, key.blob));
  }

  lemma SignatureStep(st: State, e: Event)
    ensures Step(st, e).signed == st.signed
            || (e.Sign? && At(st, e.request, Allowed) && WithId(st.keys, st.flights[e.request].id).Some?
                && var key := WithId(st.keys, st.flights[e.request].id).value;
                   Step(st, e).signed == st.signed + [Signature(e.request, key.id, key.blob)])
  {}

  /** With no key lent, nothing is signed until keys are lent again. */
  lemma {:induction false} LockedSignsNothing(events: seq<Event>, more: seq<Event>)
    requires Run(events).keys == []
    requires forall j :: 0 <= j < |more| ==> !more[j].Replace? || more[j].keys == []
    ensures Run(events + more).keys == [] && Run(events + more).signed == Run(events).signed
    decreases |more|
  {
    if more == [] {
      assert events + more == events;
    } else {
      var front, e := more[..|more| - 1], more[|more| - 1];
      LockedSignsNothing(events, front);
      LastApart(events, more);
      RunOneMore(events + front, e);
      LockedStep(Run(events + front), e);
    }
  }

  lemma LastApart(events: seq<Event>, more: seq<Event>)
    requires more != []
    ensures events + more == events + more[..|more| - 1] + [more[|more| - 1]]
  {}

  lemma LockedStep(st: State, e: Event)
    requires st.keys == [] && (!e.Replace? || e.keys == [])
    ensures Step(st, e).keys == [] && Step(st, e).signed == st.signed
  {}

  // ---- identifiers are not keys -----------------------------------------------------------------

  /** At `k` the keys are those lent at `l`. */
  ghost predicate LastLent(events: seq<Event>, k: nat, l: nat) {
    l < k <= |events| && events[l].Replace? && forall j :: l < j < k ==> !events[j].Replace?
  }

  lemma {:induction false} KeysAreTheLastLent(events: seq<Event>, k: nat, l: nat)
    requires LastLent(events, k, l)
    ensures Run(events[..k]).keys == events[l].keys
  {
    RunAt(events, k - 1);
    KeysStep(Run(events[..k - 1]), events[k - 1]);
    if l < k - 1 {
      KeysAreTheLastLent(events, k - 1, l);
    }
  }

  /** The key that signs is the first of that identifier among the last lent,
      so it is the one the request named, shown to the user, exactly when that
      first key is. */
  lemma SignsWhatWasShown(events: seq<Event>, k: nat, r: nat, id: string, l: nat)
    requires Signs(events, k, r, id) && LastLent(events, k, l)
    ensures var before, shown := Run(events[..k]).signed, Run(events[..k]).flights[r].blob;
            var after := Run(events[..k + 1]).signed;
            && |after| == |before| + 1 && after[..|before|] == before
            && after[|before|].request == r && after[|before|].id == id
            && (after[|before|].blob == shown <==> WithId(events[l].keys, id) == Some(Key(id, shown)))
  {
    KeysAreTheLastLent(events, k, l);
    RunAt(events, k);
    SignatureStep(Run(events[..k]), events[k]);
  }

  /** The lists lent, in order. */
  function Lent(events: seq<Event>): seq<seq<Key>> {
    if events == [] then []
    else
      var last := events[|events| - 1];
      Lent(events[..|events| - 1]) + if last.Replace? then [last.keys] else []
  }

  /** Every signature is made with the key the request named. */
  ghost predicate AllAsShown(events: seq<Event>) {
    forall k: nat, r: nat, id :: Signs(events, k, r, id) ==>
      WithId(Run(events[..k]).keys, id).value.blob == Run(events[..k]).flights[r].blob
  }

  /** A key found by its blob in a list is the one found by its identifier in
      that list and in any later one, if there is one. */
  ghost predicate Consistent(lists: seq<seq<Key>>) {
    forall i, j, key: Key :: 0 <= i <= j < |lists| && WithBlob(lists[i], key.blob) == Some(key) ==> FoundAgain(lists[j], key)
  }

  predicate FoundAgain(keys: seq<Key>, key: Key) {
    WithId(keys, key.id).None? || WithId(keys, key.id).value.blob == key.blob
  }

  /** The keys are the last lent, and each request in flight named a key of a
      list lent. */
  ghost predicate Known(st: State, lists: seq<seq<Key>>) {
    && st.keys == (if lists == [] then [] else lists[|lists| - 1])
    && forall r :: r in st.flights ==> NamedIn(lists, st.flights[r])
  }

  ghost predicate NamedIn(lists: seq<seq<Key>>, f: Flight) {
    exists i :: 0 <= i < |lists| && WithBlob(lists[i], f.blob) == Some(Key(f.id, f.blob))
  }

  lemma NamedInMore(lists: seq<seq<Key>>, more: seq<seq<Key>>, f: Flight)
    requires NamedIn(lists, f)
    ensures NamedIn(lists + more, f)
  {
    var i :| 0 <= i < |lists| && WithBlob(lists[i], f.blob) == Some(Key(f.id, f.blob));
    assert (lists + more)[i] == lists[i];
  }

  lemma FlightOrigin(st: State, e: Event, r: nat)
    requires r in Step(st, e).flights
    ensures var f := Step(st, e).flights[r];
            || (r in st.flights && st.flights[r].id == f.id && st.flights[r].blob == f.blob)
            || (!e.Replace? && WithBlob(st.keys, f.blob) == Some(Key(f.id, f.blob)))
  {
    if Moved(e) != Some(r) {
      OthersStay(st, e, r);
    }
  }

  lemma NamedStep(st: State, lists: seq<seq<Key>>, e: Event, r: nat)
    requires Known(st, lists) && r in Step(st, e).flights
    ensures NamedIn(lists + (if e.Replace? then [e.keys] else []), Step(st, e).flights[r])
  {
    var f, more := Step(st, e).flights[r], if e.Replace? then [e.keys] else [];
    FlightOrigin(st, e, r);
    if r in st.flights && st.flights[r].id == f.id && st.flights[r].blob == f.blob {
      assert NamedIn(lists, st.flights[r]);
    } else {
      assert lists != [] && WithBlob(lists[|lists| - 1], f.blob) == Some(Key(f.id, f.blob));
      assert NamedIn(lists, f);
    }
    NamedInMore(lists, more, f);
  }

  lemma {:induction false} KnownAlways(events: seq<Event>)
    ensures Known(Run(events), Lent(events))
  {
    if events != [] {
      var front, e := events[..|events| - 1], events[|events| - 1];
      KnownAlways(front);
      KeysStep(Run(front), e);
      forall r | r in Run(events).flights ensures NamedIn(Lent(events), Run(events).flights[r]) {
        NamedStep(Run(front), Lent(front), e, r);
      }
    }
  }

  lemma KeysStep(st: State, e: Event)
    ensures Step(st, e).keys == if e.Replace? then e.keys else st.keys
  {}

  lemma {:induction false} LentPrefix(events: seq<Event>, k: nat)
    requires k <= |events|
    ensures Lent(events[..k]) <= Lent(events)
  {
    if k == |events| {
      assert events[..k] == events;
    } else {
      LentPrefix(events[..|events| - 1], k);
      assert events[..|events| - 1][..k] == events[..k];
    }
  }

  lemma ConsistentFinds(lists: seq<seq<Key>>, n: nat, f: Flight)
    requires Consistent(lists) && n < |lists| && NamedIn(lists[..n + 1], f)
    ensures FoundAgain(lists[n], Key(f.id, f.blob))
  {
    var i :| 0 <= i < n + 1 && WithBlob(lists[..n + 1][i], f.blob) == Some(Key(f.id, f.blob));
    assert lists[..n + 1][i] == lists[i];
  }

  lemma ConsistentSigns(events: seq<Event>, k: nat, r: nat, id: string)
    requires Consistent(Lent(events)) && Signs(events, k, r, id)
    ensures WithId(Run(events[..k]).keys, id).value.blob == Run(events[..k]).flights[r].blob
  {
    var lists := Lent(events[..k]);
    var n := |lists| - 1;
    KnownAlways(events[..k]);
    LentPrefix(events, k);
    assert n >= 0 && Lent(events)[..n + 1] == lists && Lent(events)[n] == lists[n];
    ConsistentFinds(Lent(events), n, Run(events[..k]).flights[r]);
  }

  /** `set_keys` called with each of these lists. */
  function Lend(lists: seq<seq<Key>>): seq<Event> {
    if lists == [] then [] else Lend(lists[..|lists| - 1]) + [Replace(lists[|lists| - 1]), Forget]
  }

  lemma LentOneMore(events: seq<Event>, e: Event)
    ensures Lent(events + [e]) == if e.Replace? then Lent(events) + [e.keys] else Lent(events)
  {
    assert (events + [e])[..|events|] == events;
  }

  lemma LentTwoMore(events: seq<Event>, e: Event, e': Event)
    requires !e'.Replace?
    ensures Lent(events + [e, e']) == if e.Replace? then Lent(events) + [e.keys] else Lent(events)
  {
    assert events + [e, e'] == (events + [e]) + [e'];
    LentOneMore(events, e);
    LentOneMore(events + [e], e');
  }

  /** What lending leaves. */
  function Lending(st: State, lists: seq<seq<Key>>): State {
    if lists == [] then st else st.(keys := lists[|lists| - 1], remembered := map[])
  }

  lemma LendApart(events: seq<Event>, lists: seq<seq<Key>>)
    requires lists != []
    ensures events + Lend(lists)
            == events + Lend(lists[..|lists| - 1]) + [Replace(lists[|lists| - 1]), Forget]
  {
    var front, last := Lend(lists[..|lists| - 1]), [Replace(lists[|lists| - 1]), Forget];
    assert Lend(lists) == front + last;
    assert events + (front + last) == events + front + last;
  }

  lemma LendStep(st: State, lists: seq<seq<Key>>)
    requires lists != []
    ensures Step(Step(Lending(st, lists[..|lists| - 1]), Replace(lists[|lists| - 1])), Forget) == Lending(st, lists)
  {}

  lemma {:induction false} LendRuns(events: seq<Event>, lists: seq<seq<Key>>)
    ensures Run(events + Lend(lists)) == Lending(Run(events), lists)
  {
    if lists == [] {
      assert events + [] == events;
    } else {
      var front, last := lists[..|lists| - 1], lists[|lists| - 1];
      LendRuns(events, front);
      LendApart(events, lists);
      TwoMore(events + Lend(front), Replace(last), Forget);
      LendStep(Run(events), lists);
    }
  }

  lemma {:induction false} LendLent(events: seq<Event>, lists: seq<seq<Key>>)
    ensures Lent(events + Lend(lists)) == Lent(events) + lists
  {
    if lists == [] {
      assert events + [] == events;
      assert Lent(events) + [] == Lent(events);
    } else {
      var front, last := lists[..|lists| - 1], lists[|lists| - 1];
      LendLent(events, front);
      LendApart(events, lists);
      LentTwoMore(events + Lend(front), Replace(last), Forget);
      assert Lent(events) + front + [last] == Lent(events) + lists;
    }
  }

  /** The user allows a request that names `key` after list `i` is lent; then
      the lists up to `j` are lent, and the request is signed. */
  function Asked(lists: seq<seq<Key>>, i: nat, j: nat, key: Key): seq<Event>
    requires i <= j < |lists|
  {
    Lend(lists[..i + 1]) + [Start(1, 0, key.blob), Check(1)] + Lend(lists[i + 1..j + 1])
  }

  lemma TakeTwice(lists: seq<seq<Key>>, i: nat, j: nat)
    requires i <= j < |lists|
    ensures [] + lists[..i + 1] == lists[..i + 1] && lists[..i + 1] + lists[i + 1..j + 1] == lists[..j + 1]
    ensures lists[..j + 1] + lists[j + 1..] == lists
  {}

  lemma AskedLent(lists: seq<seq<Key>>, i: nat, j: nat, key: Key)
    requires i <= j < |lists|
    ensures Lent(Asked(lists, i, j, key)) == lists[..j + 1]
  {
    var lend := lists[..i + 1];
    TakeTwice(lists, i, j);
    LendLent([], lend);
    assert [] + Lend(lend) == Lend(lend);
    LentTwoMore(Lend(lend), Start(1, 0, key.blob), Check(1));
    LendLent(Lend(lend) + [Start(1, 0, key.blob), Check(1)], lists[i + 1..j + 1]);
  }

  lemma StartAndCheck(keys: seq<Key>, key: Key)
    requires WithBlob(keys, key.blob) == Some(key)
    ensures Step(Step(START.(keys := keys), Start(1, 0, key.blob)), Check(1)) == One(keys, key, Asking(false))
  {
    assert Step(START.(keys := keys), Start(1, 0, key.blob)) == One(keys, key, Looked);
    CheckMoves(One(keys, key, Looked), 1);
    assert Move(One(keys, key, Looked), 1, Asking(false)) == One(keys, key, Asking(false));
  }

  lemma AskedFirst(lists: seq<seq<Key>>, key: Key)
    requires lists != [] && WithBlob(lists[|lists| - 1], key.blob) == Some(key)
    ensures Run(Lend(lists) + [Start(1, 0, key.blob), Check(1)]) == One(lists[|lists| - 1], key, Asking(false))
  {
    LendRuns([], lists);
    assert [] + Lend(lists) == Lend(lists);
    assert Lending(START, lists) == START.(keys := lists[|lists| - 1]);
    TwoMore(Lend(lists), Start(1, 0, key.blob), Check(1));
    StartAndCheck(lists[|lists| - 1], key);
  }

  lemma StillWaiting(keys: seq<Key>, key: Key, more: seq<seq<Key>>)
    requires more != []
    ensures Lending(One(keys, key, Asking(false)), more) == One(more[|more| - 1], key, Asking(false))
  {}

  lemma AskedThen(lend: seq<seq<Key>>, more: seq<seq<Key>>, key: Key)
    requires lend != [] && WithBlob(lend[|lend| - 1], key.blob) == Some(key)
    ensures Run(Lend(lend) + [Start(1, 0, key.blob), Check(1)] + Lend(more))
            == One(if more == [] then lend[|lend| - 1] else more[|more| - 1], key, Asking(false))
  {
    AskedFirst(lend, key);
    LendRuns(Lend(lend) + [Start(1, 0, key.blob), Check(1)], more);
    if more != [] {
      StillWaiting(lend[|lend| - 1], key, more);
    }
  }

  lemma AskedRun(lists: seq<seq<Key>>, i: nat, j: nat, key: Key)
    requires i <= j < |lists| && WithBlob(lists[i], key.blob) == Some(key)
    ensures Run(Asked(lists, i, j, key)) == One(lists[j], key, Asking(false))
  {
    AskedThen(lists[..i + 1], lists[i + 1..j + 1], key);
  }

  /** What the user allowed for `key` is signed with whatever key is found
      under its identifier by then. */
  lemma AnotherKeyMaySign(lists: seq<seq<Key>>, i: nat, j: nat, key: Key)
    requires i <= j < |lists| && WithBlob(lists[i], key.blob) == Some(key) && WithId(lists[j], key.id).Some?
    ensures var before := Asked(lists, i, j, key) + [Answer(1, true, false)];
            && Lent(before + [Sign(1)]) == lists[..j + 1]
            && Signs(before + [Sign(1)], |before|, 1, key.id)
            && Run(before).flights[1].blob == key.blob
            && Run(before + [Sign(1)]).signed == [Signature(1, key.id, WithId(lists[j], key.id).value.blob)]
  {
    var before := Asked(lists, i, j, key) + [Answer(1, true, false)];
    AskedLent(lists, i, j, key);
    LentOneMore(Asked(lists, i, j, key), Answer(1, true, false));
    LentOneMore(before, Sign(1));
    AllowedRun(lists, i, j, key);
    RunOneMore(before, Sign(1));
    assert (before + [Sign(1)])[..|before|] == before;
    SignOne(lists[j], key);
  }

  lemma AllowedRun(lists: seq<seq<Key>>, i: nat, j: nat, key: Key)
    requires i <= j < |lists| && WithBlob(lists[i], key.blob) == Some(key)
    ensures Run(Asked(lists, i, j, key) + [Answer(1, true, false)]) == One(lists[j], key, Allowed)
  {
    AskedRun(lists, i, j, key);
    RunOneMore(Asked(lists, i, j, key), Answer(1, true, false));
    assert Move(One(lists[j], key, Asking(false)), 1, Allowed) == One(lists[j], key, Allowed);
  }

  lemma SignOne(keys: seq<Key>, key: Key)
    requires WithId(keys, key.id).Some?
    ensures Step(One(keys, key, Allowed), Sign(1)).signed == [Signature(1, key.id, WithId(keys, key.id).value.blob)]
  {}

  /** Signing afterwards changes nothing to what was signed before. */
  lemma SignsStays(events: seq<Event>, more: seq<Event>, k: nat, r: nat, id: string)
    requires Signs(events, k, r, id)
    ensures Signs(events + more, k, r, id) && (events + more)[..k] == events[..k]
  {
    assert (events + more)[..k] == events[..k];
  }

  /** Whatever happens besides, every signature is made with the key named,
      exactly when the lists lent are consistent. */
  lemma SignsAsShownExactly(lists: seq<seq<Key>>)
    ensures (forall events :: Lent(events) == lists ==> AllAsShown(events)) <==> Consistent(lists)
  {
    if Consistent(lists) {
      forall events | Lent(events) == lists ensures AllAsShown(events) {
        forall k: nat, r: nat, id | Signs(events, k, r, id)
          ensures WithId(Run(events[..k]).keys, id).value.blob == Run(events[..k]).flights[r].blob
        {
          ConsistentSigns(events, k, r, id);
        }
      }
    } else {
      var i, j, key: Key :| 0 <= i <= j < |lists| && WithBlob(lists[i], key.blob) == Some(key) && !FoundAgain(lists[j], key);
      AnotherSigns(lists, i, j, key);
    }
  }

  function AskedThenRest(lists: seq<seq<Key>>, i: nat, j: nat, key: Key): seq<Event>
    requires i <= j < |lists|
  {
    Asked(lists, i, j, key) + [Answer(1, true, false)] + [Sign(1)] + Lend(lists[j + 1..])
  }

  lemma AllAreLent(lists: seq<seq<Key>>, i: nat, j: nat, key: Key)
    requires i <= j < |lists| && WithBlob(lists[i], key.blob) == Some(key) && WithId(lists[j], key.id).Some?
    ensures Lent(AskedThenRest(lists, i, j, key)) == lists
  {
    AnotherKeyMaySign(lists, i, j, key);
    LendLent(Asked(lists, i, j, key) + [Answer(1, true, false)] + [Sign(1)], lists[j + 1..]);
    TakeTwice(lists, i, j);
  }

  lemma AnotherSigns(lists: seq<seq<Key>>, i: nat, j: nat, key: Key)
    requires i <= j < |lists| && WithBlob(lists[i], key.blob) == Some(key) && !FoundAgain(lists[j], key)
    ensures Lent(AskedThenRest(lists, i, j, key)) == lists && !AllAsShown(AskedThenRest(lists, i, j, key))
  {
    var before := Asked(lists, i, j, key) + [Answer(1, true, false)];
    AllAreLent(lists, i, j, key);
    AnotherKeyMaySign(lists, i, j, key);
    SignsStays(before + [Sign(1)], Lend(lists[j + 1..]), |before|, 1, key.id);
    NotAsShown(lists, i, j, key, AskedThenRest(lists, i, j, key));
  }

  lemma NotAsShown(lists: seq<seq<Key>>, i: nat, j: nat, key: Key, events: seq<Event>)
    requires i <= j < |lists| && WithBlob(lists[i], key.blob) == Some(key) && !FoundAgain(lists[j], key)
    requires var before := Asked(lists, i, j, key) + [Answer(1, true, false)];
             |before| <= |events| && events[..|before|] == before && Signs(events, |before|, 1, key.id)
    ensures !AllAsShown(events)
  {
    AllowedRun(lists, i, j, key);
  }

  /** Two ways to be shown one key and sign with another: the identifier names
      another key by then, or already names two. */
  lemma ShownOneSignedAnother(id: string, shown: Bytes, other: Bytes)
    requires shown != other
    ensures !Consistent([[Key(id, shown)], [Key(id, other)]])
    ensures !Consistent([[Key(id, other), Key(id, shown)]])
  {
    var renamed, twice := [[Key(id, shown)], [Key(id, other)]], [[Key(id, other), Key(id, shown)]];
    assert WithBlob(renamed[0], shown) == Some(Key(id, shown)) && !FoundAgain(renamed[1], Key(id, shown));
    assert twice[0][1..] == [Key(id, shown)];
    assert WithBlob(twice[0], shown) == Some(Key(id, shown)) && !FoundAgain(twice[0], Key(id, shown));
  }

  /** Every key lent under an identifier is the same. */
  ghost predicate Stable(events: seq<Event>, blobOf: string -> Bytes) {
    forall j, key :: 0 <= j < |events| && events[j].Replace? && key in events[j].keys ==> key.blob == blobOf(key.id)
  }

  lemma {:induction false} LentWasReplaced(events: seq<Event>, i: nat)
    requires i < |Lent(events)|
    ensures exists j :: 0 <= j < |events| && events[j] == Replace(Lent(events)[i])
  {
    var front, last := events[..|events| - 1], events[|events| - 1];
    if i < |Lent(front)| {
      LentWasReplaced(front, i);
      var j :| 0 <= j < |front| && front[j] == Replace(Lent(front)[i]);
      assert events[j] == front[j];
    } else {
      assert last == Replace(Lent(events)[i]);
    }
  }

  /** That is enough. */
  lemma StableIdsSignWhatWasAsked(events: seq<Event>, blobOf: string -> Bytes)
    requires Stable(events, blobOf)
    ensures AllAsShown(events)
  {
    var lists := Lent(events);
    forall i | 0 <= i < |lists| ensures forall key: Key :: key in lists[i] ==> key.blob == blobOf(key.id) {
      LentWasReplaced(events, i);
    }
    assert Consistent(lists);
    SignsAsShownExactly(lists);
  }

  // ---- the agent -------------------------------------------------------------------------------

  class Agent {
    var keys: seq<Key>
    var remembered: map<string, nat>
    var clock: nat
    var bindings: map<nat, seq<bool>>
    var flights: map<nat, Flight>
    var seen: set<nat>
    var signed: seq<Signature>

    ghost function Now(): State
      reads this
    {
      State(keys, remembered, clock, bindings, flights, seen, signed)
    }

    constructor ()
      ensures Now() == START
    {
      keys, remembered, clock, bindings, flights, seen, signed := [], map[], 0, map[], map[], {}, [];
    }

    /** `set_keys` when nothing comes between its two locks. */
    method SetKeys(loaded: seq<Key>)
      modifies this
      ensures Now() == Step(Step(old(Now()), Replace(loaded)), Forget)
    {
      keys := loaded;
      remembered := map[];
    }

    method SessionBind(session: nat, forwarding: bool)
      modifies this
      ensures Now() == Step(old(Now()), Bind(session, forwarding))
    {
      if exists r :: r in flights.Keys && flights[r].session == session {
        return;
      }
      bindings := bindings[session := (if session in bindings then bindings[session] else []) + [forwarding]];
    }

    method SignRequest(r: nat, session: nat, blob: Bytes)
      modifies this
      ensures Now() == Step(old(Now()), Start(r, session, blob))
    {
      if r in seen || exists q :: q in flights.Keys && flights[q].session == session {
        return;
      }
      seen := seen + {r};
      for i := 0 to |keys|
        invariant Now() == old(Now()).(seen := old(seen) + {r})
        invariant WithBlob(keys, blob) == WithBlob(keys[i..], blob)
      {
        assert keys[i..][1..] == keys[i + 1..];
        if keys[i].blob == blob {
          flights := flights[r := Flight(session, keys[i].id, blob, Looked)];
          return;
        }
      }
    }

    /** Is there an agreement, and may it serve? The question otherwise. */
    method CheckRequest(r: nat) returns (asked: bool)
      requires At(Now(), r, Looked)
      modifies this
      ensures Now() == Step(old(Now()), Check(r))
      ensures asked <==> At(Now(), r, Asking(Forwarded(bindings, flights[r].session)))
    {
      var f := flights[r];
      var forwarded := f.session in bindings && true in bindings[f.session];
      var recalled := f.id in remembered && clock < remembered[f.id];
      asked := !recalled || forwarded;
      flights := flights[r := f.(phase := if asked then Asking(forwarded) else Allowed)];
    }

    method Decide(r: nat, allow: bool, remember: bool)
      requires r in flights && flights[r].phase.Asking?
      modifies this
      ensures Now() == Step(old(Now()), Answer(r, allow, remember))
    {
      var f := flights[r];
      if !allow {
        flights := flights - {r};
      } else if remember && !f.phase.forwarded {
        flights := flights[r := f.(phase := Remembering)];
      } else {
        flights := flights[r := f.(phase := Allowed)];
      }
    }

    method Remember(r: nat)
      requires At(Now(), r, Remembering)
      modifies this
      ensures Now() == Step(old(Now()), Insert(r))
    {
      var f := flights[r];
      remembered := remembered[f.id := clock + REMEMBER_FOR];
      flights := flights[r := f.(phase := Allowed)];
    }

    /** The key may have been taken back during the question. */
    method Conclude(r: nat) returns (signature: Option<Signature>)
      requires At(Now(), r, Allowed)
      modifies this
      ensures Now() == Step(old(Now()), Sign(r))
      ensures signature.Some? <==> exists key :: key in keys && key.id == old(flights[r].id)
    {
      var f := flights[r];
      flights := flights - {r};
      for i := 0 to |keys|
        invariant Now() == Drop(old(Now()), r)
        invariant WithId(keys, f.id) == WithId(keys[i..], f.id)
      {
        assert keys[i..][1..] == keys[i + 1..];
        if keys[i].id == f.id {
          signature := Some(Signature(r, f.id, keys[i].blob));
          signed := signed + [signature.value];
          return;
        }
      }
      return None;
    }
  }
}
