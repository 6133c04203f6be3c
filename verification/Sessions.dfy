/** Refresh tokens: each redemption replaces the token, in two statements with
    anything in between. */
module Sessions {
  import opened Wrappers

  /** A token is told by its rank among all those drawn: no two are the same. */
  type Token = nat

  datatype Row = Row(user: nat, current: Token, prev: Option<Token>, access: Token,
                     accessExpires: nat, refreshExpires: nat, revoked: bool)

  /** A redemption between its SELECT and its UPDATE. */
  datatype Flight = Flight(session: nat, matchedCurrent: bool)

  datatype Issued = Issued(request: nat, session: nat, refresh: Token)

  datatype Config = Config(accessTtl: nat, refreshTtl: nat)

  datatype State = State(rows: seq<Row>, clock: nat, nextToken: Token, disabled: set<nat>,
                         flights: map<nat, Flight>, seen: set<nat>, issued: seq<Issued>)

  const START := State([], 0, 0, {}, map[], {}, [])

  datatype Event =
    | Create(user: nat)
    | Select(request: nat, token: Token)
    | Update(request: nat)
    | Revoke(session: nat)
    | Disable(user: nat)
    | Enable(user: nat)
    | Tick(seconds: nat)

  /** The session may still be used: not revoked, not expired, its account
      enabled. */
  predicate Alive(st: State, row: Row) {
    !row.revoked && row.refreshExpires > st.clock && row.user !in st.disabled
  }

  predicate Has(row: Row, token: Token) { row.current == token || row.prev == Some(token) }

  /** The row the SELECT finds, from the i-th on. */
  function Find(st: State, token: Token, i: nat): (r: Option<nat>)
    requires i <= |st.rows|
    ensures r.Some? ==> i <= r.value < |st.rows| && Has(st.rows[r.value], token) && Alive(st, st.rows[r.value])
    ensures r.None? ==> forall j :: i <= j < |st.rows| ==> !(Has(st.rows[j], token) && Alive(st, st.rows[j]))
    decreases |st.rows| - i
  {
    if i == |st.rows| then None
    else if Has(st.rows[i], token) && Alive(st, st.rows[i]) then Some(i)
    else Find(st, token, i + 1)
  }

  function Rotated(c: Config, st: State, row: Row): Row {
    row.(prev := Some(row.current), current := st.nextToken, access := st.nextToken + 1,
         accessExpires := st.clock + c.accessTtl, refreshExpires := st.clock + c.refreshTtl)
  }

  function Redeemed(st: State, r: nat, token: Token): State {
    var found := Find(st, token, 0);
    if found.None? then st.(seen := st.seen + {r})
    else st.(seen := st.seen + {r}, flights := st.flights[r := Flight(found.value, st.rows[found.value].current == token)])
  }

  function Concluded(c: Config, st: State, r: nat): State
    requires r in st.flights && st.flights[r].session < |st.rows|
  {
    var i := st.flights[r].session;
    var row := st.rows[i];
    if !st.flights[r].matchedCurrent then st.(rows := st.rows[i := row.(revoked := true)], flights := st.flights - {r})
    else st.(rows := st.rows[i := Rotated(c, st, row)], flights := st.flights - {r}, nextToken := st.nextToken + 2,
             issued := st.issued + [Issued(r, i, st.nextToken)])
  }

  /** A step that is not due changes nothing. */
  function Step(c: Config, st: State, e: Event): State {
    match e
    case Create(user) =>
      st.(rows := st.rows + [Row(user, st.nextToken, None, st.nextToken + 1, st.clock + c.accessTtl, st.clock + c.refreshTtl, false)],
          nextToken := st.nextToken + 2)
    case Select(r, token) => if r in st.seen then st else Redeemed(st, r, token)
    case Update(r) => if r in st.flights && st.flights[r].session < |st.rows| then Concluded(c, st, r) else st
    case Revoke(i) => if i < |st.rows| then st.(rows := st.rows[i := st.rows[i].(revoked := true)]) else st
    case Disable(user) => st.(disabled := st.disabled + {user})
    case Enable(user) => st.(disabled := st.disabled - {user})
    case Tick(d) => st.(clock := st.clock + d)
  }

  function After(c: Config, st: State, events: seq<Event>): State {
    if events == [] then st else Step(c, After(c, st, events[..|events| - 1]), events[|events| - 1])
  }

  // ---- what always holds ---------------------------------------------------------------------

  /** Tokens drawn before, the previous one before the current. */
  ghost predicate Drawn(rows: seq<Row>, next: Token) {
    forall i :: 0 <= i < |rows| ==> rows[i].current < next && (rows[i].prev.Some? ==> rows[i].prev.value < rows[i].current)
  }

  /** No token in two sessions. */
  ghost predicate Apart(rows: seq<Row>) {
    forall i, j, t: Token :: 0 <= i < j < |rows| && Has(rows[i], t) ==> !Has(rows[j], t)
  }

  ghost predicate Valid(st: State) {
    && Drawn(st.rows, st.nextToken) && Apart(st.rows)
    && (forall r :: r in st.flights ==> r in st.seen && st.flights[r].session < |st.rows|)
    && (forall k :: 0 <= k < |st.issued| ==> st.issued[k].refresh < st.nextToken)
  }

  /** A row whose tokens are its own or newly drawn. */
  lemma ReplaceRow(rows: seq<Row>, i: nat, row: Row, next: Token, next': Token)
    requires Drawn(rows, next) && Apart(rows) && i < |rows| && next <= next'
    requires forall t: Token :: Has(row, t) ==> Has(rows[i], t) || t >= next
    requires row.current < next' && (row.prev.Some? ==> row.prev.value < row.current)
    ensures Drawn(rows[i := row], next') && Apart(rows[i := row])
  {
    var all := rows[i := row];
    forall j, k, t: Token | 0 <= j < k < |all| && Has(all[j], t) ensures !Has(all[k], t) {
      assert j != i ==> t < next;
      assert k != i && Has(rows[k], t) ==> t < next;
      assert j != i && k != i ==> Has(rows[j], t);
    }
  }

  lemma AppendRow(rows: seq<Row>, row: Row, next: Token, next': Token)
    requires Drawn(rows, next) && Apart(rows) && row.prev == None && next <= row.current < next'
    ensures Drawn(rows + [row], next') && Apart(rows + [row])
  {
    var all := rows + [row];
    forall j, k, t: Token | 0 <= j < k < |all| && Has(all[j], t) ensures !Has(all[k], t) {
      assert Has(rows[j], t) && t < next;
    }
  }

  lemma ConcludedValid(c: Config, st: State, r: nat)
    requires Valid(st) && r in st.flights
    ensures Valid(Concluded(c, st, r))
  {
    var i := st.flights[r].session;
    if st.flights[r].matchedCurrent {
      ReplaceRow(st.rows, i, Rotated(c, st, st.rows[i]), st.nextToken, st.nextToken + 2);
    } else {
      ReplaceRow(st.rows, i, st.rows[i].(revoked := true), st.nextToken, st.nextToken);
    }
  }

  lemma StepValid(c: Config, st: State, e: Event)
    requires Valid(st)
    ensures Valid(Step(c, st, e))
  {
    match e
    case Create(user) =>
      AppendRow(st.rows, Step(c, st, e).rows[|st.rows|], st.nextToken, st.nextToken + 2);
    case Update(r) =>
      if r in st.flights {
        ConcludedValid(c, st, r);
      }
    case Revoke(i) =>
      if i < |st.rows| {
        ReplaceRow(st.rows, i, st.rows[i].(revoked := true), st.nextToken, st.nextToken);
      }
    case _ =>
  }

  lemma {:induction false} AlwaysValid(c: Config, st: State, events: seq<Event>)
    requires Valid(st)
    ensures Valid(After(c, st, events))
  {
    if events != [] {
      AlwaysValid(c, st, events[..|events| - 1]);
      StepValid(c, After(c, st, events[..|events| - 1]), events[|events| - 1]);
    }
  }

  /** One session at most answers to a token: the SELECT finds the one. */
  lemma FindIsTheOne(st: State, token: Token, i: nat)
    requires Valid(st) && i < |st.rows| && Has(st.rows[i], token) && Alive(st, st.rows[i])
    ensures Find(st, token, 0) == Some(i)
  {}

  // ---- revocation ------------------------------------------------------------------------------

  lemma StepRevoked(c: Config, st: State, e: Event, i: nat)
    requires i < |st.rows| && st.rows[i].revoked
    ensures i < |Step(c, st, e).rows| && Step(c, st, e).rows[i].revoked
  {}

  /** A revoked session stays revoked whatever was in flight: a rotation that
      lands later changes its tokens and nothing else, and no token of it is
      ever accepted again. */
  lemma {:induction false} RevokedForever(c: Config, st: State, events: seq<Event>, i: nat)
    requires i < |st.rows| && st.rows[i].revoked
    ensures var st' := After(c, st, events);
            && i < |st'.rows| && st'.rows[i].revoked && !Alive(st', st'.rows[i])
            && forall token :: Find(st', token, 0) != Some(i)
  {
    if events != [] {
      RevokedForever(c, st, events[..|events| - 1], i);
      StepRevoked(c, After(c, st, events[..|events| - 1]), events[|events| - 1], i);
    }
  }

  // ---- which tokens are accepted -----------------------------------------------------------------

  /** The seconds that passed. */
  function Elapsed(events: seq<Event>): nat {
    if events == [] then 0
    else Elapsed(events[..|events| - 1]) + match events[|events| - 1] case Tick(seconds) => seconds case _ => 0
  }

  /** The accounts of the sessions, in the order they were made. */
  function Users(events: seq<Event>): seq<nat> {
    if events == [] then []
    else Users(events[..|events| - 1]) + match events[|events| - 1] case Create(user) => [user] case _ => []
  }

  /** The last word about the account is that it is disabled. */
  predicate Barred(events: seq<Event>, user: nat) {
    events != []
    && match events[|events| - 1]
       case Disable(u) => u == user || Barred(events[..|events| - 1], user)
       case Enable(u) => u != user && Barred(events[..|events| - 1], user)
       case _ => Barred(events[..|events| - 1], user)
  }

  /** Session `i` was revoked: asked for, or at the end of a redemption of its
      previous token. */
  ghost predicate Ended(c: Config, events: seq<Event>, i: nat) {
    exists j :: 0 <= j < |events| && Ends(After(c, START, events[..j]), events[j], i)
  }

  predicate Ends(st: State, e: Event, i: nat) {
    i < |st.rows| && match e
                     case Revoke(k) => k == i
                     case Update(r) => r in st.flights && st.flights[r] == Flight(i, false)
                     case _ => false
  }

  /** When session `i` was made, or rotated for the last time. */
  ghost function RenewedAt(c: Config, events: seq<Event>, i: nat): nat {
    if events == [] then 0
    else
      var front, e := events[..|events| - 1], events[|events| - 1];
      if (e.Create? && |Users(front)| == i) || Rotates(After(c, START, front), e, i) then Elapsed(front)
      else RenewedAt(c, front, i)
  }

  lemma EndedOneMore(c: Config, events: seq<Event>, e: Event, i: nat)
    ensures Ended(c, events + [e], i) <==> Ended(c, events, i) || Ends(After(c, START, events), e, i)
  {
    var all := events + [e];
    assert all[|events|] == e && all[..|events|] == events;
    forall j | 0 <= j < |events| ensures all[j] == events[j] && all[..j] == events[..j] {}
  }

  /** What the rows and the clock are made of. */
  ghost predicate Traced(c: Config, events: seq<Event>) {
    var st := After(c, START, events);
    && st.clock == Elapsed(events) && |st.rows| == |Users(events)|
    && (forall user :: user in st.disabled <==> Barred(events, user))
    && (forall i :: 0 <= i < |st.rows| ==> RowTraced(c, events, st.rows[i], i))
  }

  ghost predicate RowTraced(c: Config, events: seq<Event>, row: Row, i: nat)
    requires i < |Users(events)|
  {
    && row.user == Users(events)[i] && (row.revoked <==> Ended(c, events, i))
    && row.refreshExpires == RenewedAt(c, events, i) + c.refreshTtl
    && row.accessExpires == RenewedAt(c, events, i) + c.accessTtl && row.access == row.current + 1
  }

  lemma RowStep(c: Config, st: State, e: Event, i: nat)
    requires i < |st.rows|
    ensures i < |Step(c, st, e).rows|
    ensures var row, row' := st.rows[i], Step(c, st, e).rows[i];
            && row'.user == row.user
            && (row'.revoked <==> row.revoked || Ends(st, e, i))
            && row'.refreshExpires == (if Rotates(st, e, i) then st.clock + c.refreshTtl else row.refreshExpires)
            && row'.accessExpires == (if Rotates(st, e, i) then st.clock + c.accessTtl else row.accessExpires)
            && (row.access == row.current + 1 ==> row'.access == row'.current + 1)
  {}

  lemma OthersStep(c: Config, st: State, e: Event)
    ensures var st' := Step(c, st, e);
            && st'.clock == st.clock + (match e case Tick(d) => d case _ => 0)
            && |st'.rows| == |st.rows| + (if e.Create? then 1 else 0)
            && (forall user :: user in st'.disabled <==>
                  match e
                  case Disable(u) => u == user || user in st.disabled
                  case Enable(u) => u != user && user in st.disabled
                  case _ => user in st.disabled)
  {}

  lemma NewRow(c: Config, st: State, user: nat)
    ensures var row := Step(c, st, Create(user)).rows[|st.rows|];
            && row.user == user && !row.revoked && row.refreshExpires == st.clock + c.refreshTtl
            && row.accessExpires == st.clock + c.accessTtl && row.access == row.current + 1
  {}

  /** A session not made yet was never ended. */
  lemma {:induction false} NotEndedYet(c: Config, events: seq<Event>, i: nat)
    requires |After(c, START, events).rows| <= i
    ensures !Ended(c, events, i)
  {
    if events != [] {
      var front, e := events[..|events| - 1], events[|events| - 1];
      assert events == front + [e];
      OthersStep(c, After(c, START, front), e);
      NotEndedYet(c, front, i);
      EndedOneMore(c, front, e, i);
    }
  }

  lemma RowTracedStep(c: Config, events: seq<Event>, e: Event, i: nat)
    requires Traced(c, events) && i < |Step(c, After(c, START, events), e).rows| == |Users(events + [e])|
    ensures RowTraced(c, events + [e], Step(c, After(c, START, events), e).rows[i], i)
  {
    var st, all := After(c, START, events), events + [e];
    assert all[..|events|] == events && all[|events|] == e;
    EndedOneMore(c, events, e, i);
    if i < |st.rows| {
      RowStep(c, st, e, i);
      assert RowTraced(c, events, st.rows[i], i);
    } else {
      OthersStep(c, st, e);
      NewRow(c, st, e.user);
      NotEndedYet(c, events, i);
    }
  }

  lemma {:induction false} AlwaysTraced(c: Config, events: seq<Event>)
    ensures Traced(c, events)
  {
    if events != [] {
      var front, e := events[..|events| - 1], events[|events| - 1];
      AlwaysTraced(c, front);
      OthersStep(c, After(c, START, front), e);
      assert front + [e] == events;
      forall i | 0 <= i < |After(c, START, events).rows| ensures RowTraced(c, events, After(c, START, events).rows[i], i) {
        RowTracedStep(c, front, e, i);
      }
    }
  }

  lemma StartIsValid()
    ensures Valid(START)
  {}

  /** A token is taken up for session `i` exactly when it is the current one of
      that session, or the one before, the session was not revoked, its account
      is not disabled, and less than the time allowed has passed since it was
      made or last rotated. */
  lemma AcceptedExactly(c: Config, events: seq<Event>, r: nat, token: Token, i: nat)
    requires r !in After(c, START, events).seen
    ensures |After(c, START, events).rows| == |Users(events)|
    ensures var st := After(c, START, events);
            var st' := Step(c, st, Select(r, token));
            (r in st'.flights && st'.flights[r].session == i)
            <==> && i < |Users(events)| && (token == st.rows[i].current || Some(token) == st.rows[i].prev)
                 && !Ended(c, events, i) && !Barred(events, Users(events)[i])
                 && Elapsed(events) < RenewedAt(c, events, i) + c.refreshTtl
    ensures var st := After(c, START, events);
            var st' := Step(c, st, Select(r, token));
            r in st'.flights ==> st'.flights[r].session < |st.rows|
                                 && (st'.flights[r].matchedCurrent <==> st.rows[st'.flights[r].session].current == token)
  {
    var st := After(c, START, events);
    StartIsValid();
    AlwaysValid(c, START, events);
    AlwaysTraced(c, events);
    assert r !in st.flights;
    if i < |st.rows| {
      assert RowTraced(c, events, st.rows[i], i);
      if Has(st.rows[i], token) && Alive(st, st.rows[i]) {
        FindIsTheOne(st, token, i);
      }
    }
  }

  // ---- a token redeemed twice -----------------------------------------------------------------

  /** `t` was drawn, and is not the current token of session `i`. */
  ghost predicate Displaced(st: State, i: nat, t: Token) {
    i < |st.rows| && t < st.nextToken && st.rows[i].current != t
  }

  lemma StepDisplaced(c: Config, st: State, e: Event, i: nat, t: Token)
    requires Displaced(st, i, t)
    ensures Displaced(Step(c, st, e), i, t)
  {}

  /** A token that is no longer current never is again. */
  lemma {:induction false} NeverCurrentAgain(c: Config, st: State, events: seq<Event>, i: nat, t: Token)
    requires Displaced(st, i, t)
    ensures Displaced(After(c, st, events), i, t)
  {
    if events != [] {
      NeverCurrentAgain(c, st, events[..|events| - 1], i, t);
      StepDisplaced(c, After(c, st, events[..|events| - 1]), events[|events| - 1], i, t);
    }
  }

  /** The redemption in flight is due to rotate session `i`. */
  ghost predicate WillRotate(st: State, r: nat, i: nat) {
    r in st.flights && st.flights[r] == Flight(i, true) && i < |st.rows|
  }

  /** Two rotations of one session in flight, the second concluded after the
      first, anything in between and afterwards: the first one's token is never
      current again, so that at most one of the two is ever current. */
  lemma RedeemedTwice(c: Config, st: State, r1: nat, r2: nat, i: nat, between: seq<Event>, later: seq<Event>)
    requires Valid(st) && r1 != r2 && WillRotate(st, r1, i)
    requires WillRotate(After(c, Step(c, st, Update(r1)), between), r2, i)
    ensures var st1 := Step(c, st, Update(r1));
            var st2 := Step(c, After(c, st1, between), Update(r2));
            var st3 := After(c, st2, later);
            var t1 := st1.rows[i].current;
            && st1.issued == st.issued + [Issued(r1, i, t1)]
            && i < |st2.rows| && st2.rows[i].current != t1
            && i < |st3.rows| && st3.rows[i].current != t1
  {
    var st1 := Step(c, st, Update(r1));
    var t1 := st1.rows[i].current;
    StepValid(c, st, Update(r1));
    var mid := After(c, st1, between);
    GrowsOnly(c, st1, between);
    assert t1 < mid.nextToken;
    var st2 := Step(c, mid, Update(r2));
    assert st2.rows[i].current == mid.nextToken;
    assert Displaced(st2, i, t1);
    NeverCurrentAgain(c, st2, later, i, t1);
  }

  lemma {:induction false} GrowsOnly(c: Config, st: State, events: seq<Event>)
    ensures st.nextToken <= After(c, st, events).nextToken && |st.rows| <= |After(c, st, events).rows|
  {
    if events != [] {
      GrowsOnly(c, st, events[..|events| - 1]);
    }
  }

  /** The event concludes a rotation of session `i`. */
  ghost predicate Rotates(st: State, e: Event, i: nat) {
    e.Update? && WillRotate(st, e.request, i)
  }

  /** Session `i` is not rotated along these events. */
  ghost predicate Unrotated(c: Config, st: State, events: seq<Event>, i: nat) {
    forall k :: 0 <= k < |events| ==> !Rotates(After(c, st, events[..k]), events[k], i)
  }

  lemma StepUnrotated(c: Config, st: State, e: Event, i: nat)
    requires i < |st.rows| && !Rotates(st, e, i)
    ensures i < |Step(c, st, e).rows| && Step(c, st, e).rows[i].current == st.rows[i].current && Step(c, st, e).rows[i].prev == st.rows[i].prev
  {}

  lemma {:induction false} SameTokens(c: Config, st: State, events: seq<Event>, i: nat)
    requires i < |st.rows| && Unrotated(c, st, events, i)
    ensures i < |After(c, st, events).rows|
    ensures After(c, st, events).rows[i].current == st.rows[i].current && After(c, st, events).rows[i].prev == st.rows[i].prev
  {
    if events != [] {
      var front, e := events[..|events| - 1], events[|events| - 1];
      forall k | 0 <= k < |front| ensures !Rotates(After(c, st, front[..k]), front[k], i) {
        assert front[..k] == events[..k] && front[k] == events[k];
      }
      SameTokens(c, st, front, i);
      assert front == events[..|events| - 1];
      StepUnrotated(c, After(c, st, front), e, i);
    }
  }

  /** A redemption due to revoke session `i` is still due, or was concluded and
      the session is revoked. */
  ghost predicate Doomed(st: State, r: nat, i: nat) {
    i < |st.rows| && r in st.seen
    && (st.rows[i].revoked || (r in st.flights && st.flights[r] == Flight(i, false)))
  }

  lemma StepDoomed(c: Config, st: State, e: Event, r: nat, i: nat)
    requires Doomed(st, r, i)
    ensures Doomed(Step(c, st, e), r, i)
    ensures e == Update(r) ==> Step(c, st, e).rows[i].revoked
  {}

  lemma {:induction false} StaysDoomed(c: Config, st: State, events: seq<Event>, r: nat, i: nat)
    requires Doomed(st, r, i)
    ensures Doomed(After(c, st, events), r, i)
  {
    if events != [] {
      StaysDoomed(c, st, events[..|events| - 1], r, i);
      StepDoomed(c, After(c, st, events[..|events| - 1]), events[|events| - 1], r, i);
    }
  }

  /** The token displaced by a rotation, presented before the next one while
      the session lives: once that redemption is concluded, whatever comes in
      between, the session is revoked. */
  lemma DisplacedTokenRevokes(c: Config, st: State, r: nat, i: nat, quiet: seq<Event>, replay: nat, between: seq<Event>)
    requires Valid(st) && WillRotate(st, r, i)
    requires var st1 := Step(c, st, Update(r));
             Unrotated(c, st1, quiet, i) && var st2 := After(c, st1, quiet);
             i < |st2.rows| && Alive(st2, st2.rows[i]) && replay !in st2.seen
    ensures var displaced := st.rows[i].current;
            var st2 := After(c, Step(c, st, Update(r)), quiet);
            var st3 := After(c, Step(c, st2, Select(replay, displaced)), between);
            i < |st3.rows| && (Step(c, st3, Update(replay)).rows[i].revoked)
  {
    var st1 := Step(c, st, Update(r));
    var t := st.rows[i].current;
    StepValid(c, st, Update(r));
    AlwaysValid(c, st1, quiet);
    SameTokens(c, st1, quiet, i);
    var st2 := After(c, st1, quiet);
    assert st2.rows[i].prev == Some(t) && st2.rows[i].current != t;
    FindIsTheOne(st2, t, i);
    var st' := Step(c, st2, Select(replay, t));
    assert Doomed(st', replay, i);
    StaysDoomed(c, st', between, replay, i);
    StepDoomed(c, After(c, st', between), Update(replay), replay, i);
  }

  /** How many times session `i` is rotated along these events. */
  ghost function Rotations(c: Config, st: State, events: seq<Event>, i: nat): nat {
    if events == [] then 0
    else
      var front, e := events[..|events| - 1], events[|events| - 1];
      Rotations(c, st, front, i) + if Rotates(After(c, st, front), e, i) then 1 else 0
  }

  /** Where token `t`, once current in session `i`, is after `n` rotations. */
  ghost predicate Pushed(st: State, i: nat, t: Token, n: nat) {
    && i < |st.rows| && t < st.nextToken
    && (forall j :: 0 <= j < |st.rows| && j != i ==> !Has(st.rows[j], t))
    && (n == 0 <==> st.rows[i].current == t)
    && (n == 1 <==> st.rows[i].prev == Some(t))
  }

  lemma StepPushed(c: Config, st: State, e: Event, i: nat, t: Token, n: nat)
    requires Pushed(st, i, t, n)
    ensures Pushed(Step(c, st, e), i, t, if Rotates(st, e, i) then n + 1 else n)
  {}

  lemma {:induction false} AfterPushed(c: Config, st: State, events: seq<Event>, i: nat)
    requires Valid(st) && i < |st.rows|
    ensures Pushed(After(c, st, events), i, st.rows[i].current, Rotations(c, st, events, i))
  {
    if events == [] {
      assert Has(st.rows[i], st.rows[i].current);
    } else {
      AfterPushed(c, st, events[..|events| - 1], i);
      StepPushed(c, After(c, st, events[..|events| - 1]), events[|events| - 1], i, st.rows[i].current,
                 Rotations(c, st, events[..|events| - 1], i));
    }
  }

  /** What a redemption is due to do, it stays due to do until it is concluded. */
  lemma {:induction false} StaysDue(c: Config, st: State, events: seq<Event>, r: nat, f: Flight)
    requires r in st.flights && st.flights[r] == f && r in st.seen && Update(r) !in events
    ensures r in After(c, st, events).flights && After(c, st, events).flights[r] == f && r in After(c, st, events).seen
  {
    if events != [] {
      var front, e := events[..|events| - 1], events[|events| - 1];
      assert e in events && forall x :: x in front ==> x in events;
      StaysDue(c, st, front, r, f);
    }
  }

  /** A token is selected again after `n` rotations of its session, which still
      lives: due to rotate it again when there was none, to revoke it when there
      was one, refused when there were more. */
  lemma SelectedAgain(c: Config, st: State, i: nat, events: seq<Event>, r: nat)
    requires Valid(st) && i < |st.rows|
    requires var st1 := After(c, st, events); r !in st1.seen && i < |st1.rows| && Alive(st1, st1.rows[i])
    ensures var st1, n := After(c, st, events), Rotations(c, st, events, i);
            var st2 := Step(c, st1, Select(r, st.rows[i].current));
            && (WillRotate(st2, r, i) <==> n == 0)
            && (r in st2.flights && st2.flights[r] == Flight(i, false) <==> n == 1)
            && (r !in st2.flights <==> n >= 2)
  {
    var st1, t := After(c, st, events), st.rows[i].current;
    AlwaysValid(c, st, events);
    AfterPushed(c, st, events, i);
    if Has(st1.rows[i], t) {
      FindIsTheOne(st1, t, i);
    } else {
      assert Find(st1, t, 0).None?;
    }
  }

  /** One token redeemed twice, the second SELECT after `before`: it goes
      unnoticed, and each gets a new token, exactly when the session was not
      rotated before that SELECT, so when both come before the first UPDATE;
      rotated once, the second redemption revokes the session; rotated more, it
      is refused. */
  lemma RedeemedAgain(c: Config, st: State, i: nat, before: seq<Event>, r: nat, between: seq<Event>)
    requires Valid(st) && i < |st.rows| && Update(r) !in between
    requires var st1 := After(c, st, before); r !in st1.seen && i < |st1.rows| && Alive(st1, st1.rows[i])
    ensures var st1, n := After(c, st, before), Rotations(c, st, before, i);
            var st2 := After(c, Step(c, st1, Select(r, st.rows[i].current)), between);
            var st3 := Step(c, st2, Update(r));
            && i < |st2.rows| && i < |st3.rows|
            && (n == 0 ==> st3.issued == st2.issued + [Issued(r, i, st3.rows[i].current)]
                           && st3.rows[i].revoked == st2.rows[i].revoked)
            && (n == 1 ==> st3.rows[i].revoked && st3.issued == st2.issued)
            && (n >= 2 ==> Step(c, st1, Select(r, st.rows[i].current)) == st1.(seen := st1.seen + {r}))
  {
    var st1, t := After(c, st, before), st.rows[i].current;
    var selected := Step(c, st1, Select(r, t));
    SelectedAgain(c, st, i, before, r);
    AlwaysValid(c, st, before);
    GrowsOnly(c, selected, between);
    var n := Rotations(c, st, before, i);
    if n == 0 {
      StaysDue(c, selected, between, r, Flight(i, true));
    } else if n == 1 {
      assert Doomed(selected, r, i);
      StaysDoomed(c, selected, between, r, i);
      StepDoomed(c, After(c, selected, between), Update(r), r, i);
      StaysDue(c, selected, between, r, Flight(i, false));
    }
  }

  // ---- the calls --------------------------------------------------------------------------------

  class Server {
    var rows: seq<Row>
    var clock: nat
    var nextToken: Token
    var disabled: set<nat>
    var flights: map<nat, Flight>
    var seen: set<nat>
    var issued: seq<Issued>
    const config: Config

    ghost function Now(): State
      reads this
    {
      State(rows, clock, nextToken, disabled, flights, seen, issued)
    }

    constructor (config: Config)
      ensures Now() == START && this.config == config
    {
      this.config := config;
      rows, clock, nextToken, disabled, flights, seen, issued := [], 0, 0, {}, map[], {}, [];
    }

    method NewToken() returns (t: Token)
      modifies this`nextToken
      ensures t == old(nextToken) && nextToken == t + 1
    {
      t := nextToken;
      nextToken := nextToken + 1;
    }

    method CreateSession(user: nat) returns (id: nat, refresh: Token, access: Token)
      modifies this
      ensures Now() == Step(config, old(Now()), Create(user))
      ensures id < |rows| && rows[id].current == refresh && rows[id].access == access
    {
      refresh := NewToken();
      access := NewToken();
      id := |rows|;
      rows := rows + [Row(user, refresh, None, access, clock + config.accessTtl, clock + config.refreshTtl, false)];
    }

    /** The SELECT: false when no living session answers to the token. */
    method BeginRefresh(r: nat, token: Token) returns (found: bool)
      requires r !in seen
      modifies this
      ensures Now() == Step(config, old(Now()), Select(r, token))
      ensures found <==> exists i :: 0 <= i < |rows| && Has(rows[i], token) && Alive(Now(), rows[i])
    {
      seen := seen + {r};
      for i := 0 to |rows|
        invariant Now() == old(Now()).(seen := old(seen) + {r})
        invariant Find(old(Now()), token, 0) == Find(old(Now()), token, i)
        invariant forall j :: 0 <= j < i ==> !(Has(rows[j], token) && Alive(Now(), rows[j]))
      {
        var row := rows[i];
        if (row.current == token || row.prev == Some(token)) && !row.revoked && row.refreshExpires > clock && row.user !in disabled {
          flights := flights[r := Flight(i, row.current == token)];
          assert Has(rows[i], token) && Alive(Now(), rows[i]);
          return true;
        }
      }
      return false;
    }

    /** The UPDATE: a replayed token revokes, the current one is replaced. */
    method EndRefresh(r: nat) returns (refresh: Option<Token>)
      requires r in flights && flights[r].session < |rows|
      modifies this
      ensures Now() == Step(config, old(Now()), Update(r))
      ensures refresh.Some? <==> old(flights[r].matchedCurrent)
      ensures refresh.Some? ==> rows[old(flights[r].session)].current == refresh.value
    {
      var f := flights[r];
      flights := flights - {r};
      if !f.matchedCurrent {
        rows := rows[f.session := rows[f.session].(revoked := true)];
        return None;
      }
      var token := NewToken();
      var access := NewToken();
      var row := rows[f.session];
      rows := rows[f.session := row.(prev := Some(row.current), current := token, access := access,
                                     accessExpires := clock + config.accessTtl, refreshExpires := clock + config.refreshTtl)];
      issued := issued + [Issued(r, f.session, token)];
      return Some(token);
    }
  }
}
