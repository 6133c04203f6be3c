/** The native host: an answer cut in parts the browser accepts. */
module NativeHost {
  import opened Seqs
  import opened Utf8

  /** 700 KiB */
  const PART := 716800

  type Chars = seq<Scalar>

  /** A good cut of a text: pieces of whole characters that make it up, each
      within 700 KiB, all but the last within a character of it, none empty but
      for the empty text. */
  ghost predicate Pieces(text: Chars, pieces: seq<Chars>) {
    && Concat(pieces) == text
    && pieces != []
    && (forall i :: 0 <= i < |pieces| ==> |Of(pieces[i])| <= 716800)
    && (forall i :: 0 <= i < |pieces| - 1 ==> |Of(pieces[i])| > 716796)
    && (if text == [] then pieces == [[]] else forall i :: 0 <= i < |pieces| ==> pieces[i] != [])
  }

  /** Where the next part ends. */
  method NextCut(rest: Bytes, ghost cs: Chars) returns (cut: nat)
    requires rest == Of(cs) && rest != []
    ensures 0 < cut <= |rest| && cut <= 716800 && Boundary(rest, cut)
    ensures cut == |rest| || cut > 716796
  {
    cut := if |rest| < PART then |rest| else PART;
    ghost var near := BoundaryNear(cs, cut);
    if cut == |rest| {
      near := cut;
    }
    while !Boundary(rest, cut)
      invariant 0 < near <= cut <= |rest| && cut <= 716800
      decreases cut
    {
      cut := cut - 1;
    }
  }

  /** The pieces cut so far, and what is left. */
  ghost predicate CutSoFar(cs: Chars, pieces: seq<Chars>, after: Chars) {
    Concat(pieces) + after == cs && Sized(pieces, after)
  }

  ghost predicate Sized(pieces: seq<Chars>, after: Chars) {
    && (forall i :: 0 <= i < |pieces| ==> |Of(pieces[i])| <= 716800 && pieces[i] != [])
    && (forall i :: 0 <= i < |pieces| && (i < |pieces| - 1 || after != []) ==> |Of(pieces[i])| > 716796)
  }

  lemma OnePieceMore(cs: Chars, pieces: seq<Chars>, after: Chars, k: nat)
    requires CutSoFar(cs, pieces, after) && k <= |after| && 0 < |Of(after[..k])| <= 716800
    requires k == |after| || |Of(after[..k])| > 716796
    ensures CutSoFar(cs, pieces + [after[..k]], after[k..])
  {
    ConcatOfOneMore(pieces, after[..k]);
    SplitAgain(after, k);
    Regroup(Concat(pieces), after[..k], after[k..], []);
    SizedOneMore(pieces, after, k);
  }

  lemma SizedOneMore(pieces: seq<Chars>, after: Chars, k: nat)
    requires Sized(pieces, after) && k <= |after| && 0 < |Of(after[..k])| <= 716800
    requires k == |after| || |Of(after[..k])| > 716796
    ensures Sized(pieces + [after[..k]], after[k..])
  {
    assert after[..k] != [];
  }

  lemma SplitAgain(cs: Chars, k: nat)
    requires k <= |cs|
    ensures cs == cs[..k] + cs[k..]
  {}

  lemma AllCut(cs: Chars, pieces: seq<Chars>)
    requires CutSoFar(cs, pieces, [])
    ensures Pieces(cs, if pieces == [] then [[]] else pieces)
  {
    if pieces == [] {
      assert cs == [];
      assert Concat<Scalar>([[]]) == cs;
    } else {
      assert Concat(pieces) == cs;
      assert Concat(pieces)[|Concat(pieces[..|pieces| - 1])|..] == pieces[|pieces| - 1];
    }
  }

  lemma {:induction false} OfAppend(a: Chars, b: Chars)
    ensures Of(a + b) == Of(a) + Of(b)
  {
    if a == [] {
      assert a + b == b;
    } else {
      assert (a + b)[1..] == a[1..] + b;
      OfAppend(a[1..], b);
      Regroup(OfChar(a[0]), Of(a[1..]), Of(b), []);
    }
  }

  lemma {:induction false} PartsMakeUp(parts: seq<Bytes>, pieces: seq<Chars>)
    requires |parts| == |pieces| && forall i :: 0 <= i < |parts| ==> parts[i] == Of(pieces[i])
    ensures Concat(parts) == Of(Concat(pieces))
  {
    if parts != [] {
      var n := |parts| - 1;
      PartsMakeUp(parts[..n], pieces[..n]);
      OfAppend(Concat(pieces[..n]), pieces[n]);
    }
  }

  lemma PartsAreText(parts: seq<Bytes>, pieces: seq<Chars>)
    requires |parts| == |pieces| && forall i :: 0 <= i < |parts| ==> parts[i] == Of(pieces[i])
    ensures forall i :: 0 <= i < |parts| ==> Valid(parts[i]) && (pieces[i] != [] ==> parts[i] != [])
  {
    forall i | 0 <= i < |parts| ensures Valid(parts[i]) {
      ValidOf(pieces[i]);
    }
  }

  /** The bytes of a good cut. */
  lemma PartsOfPieces(cs: Chars, parts: seq<Bytes>, pieces: seq<Chars>)
    requires Pieces(cs, pieces)
    requires |parts| == |pieces| && forall i :: 0 <= i < |parts| ==> parts[i] == Of(pieces[i])
    ensures Concat(parts) == Of(cs)
    ensures forall i :: 0 <= i < |parts| ==> |parts[i]| <= 716800 && Valid(parts[i])
    ensures forall i :: 0 <= i < |parts| - 1 ==> |parts[i]| > 716796
    ensures if Of(cs) == [] then parts == [[]] else forall i :: 0 <= i < |parts| ==> parts[i] != []
  {
    PartsMakeUp(parts, pieces);
    PartsAreText(parts, pieces);
    assert Of(cs) == [] <==> cs == [];
  }

  /** What is left is cut again and again. */
  method Cut(text: Bytes, ghost cs: Chars) returns (parts: seq<Bytes>, ghost pieces: seq<Chars>)
    requires text == Of(cs)
    ensures CutSoFar(cs, pieces, [])
    ensures |parts| == |pieces| && forall i :: 0 <= i < |parts| ==> parts[i] == Of(pieces[i])
  {
    parts, pieces := [], [];
    var rest := text;
    ghost var after := cs;
    while rest != []
      invariant rest == Of(after) && CutSoFar(cs, pieces, after)
      invariant |parts| == |pieces| && forall i :: 0 <= i < |parts| ==> parts[i] == Of(pieces[i])
      decreases |rest|
    {
      var cut := NextCut(rest, after);
      ghost var k := CutAtBoundary(after, cut);
      OnePieceMore(cs, pieces, after, k);
      parts, pieces := parts + [rest[..cut]], pieces + [after[..k]];
      rest, after := rest[cut..], after[k..];
    }
    assert after == [];
  }

  /** The parts of an answer: text each, within 700 KiB, none empty but for the
      empty answer, as few as whole characters allow, which together make it up. */
  method Frames(text: Bytes, ghost cs: Chars) returns (parts: seq<Bytes>, ghost pieces: seq<Chars>)
    requires text == Of(cs)
    ensures Concat(parts) == text
    ensures forall i :: 0 <= i < |parts| ==> |parts[i]| <= 716800 && Valid(parts[i])
    ensures forall i :: 0 <= i < |parts| - 1 ==> |parts[i]| > 716796
    ensures if text == [] then parts == [[]] else forall i :: 0 <= i < |parts| ==> parts[i] != []
    ensures Pieces(cs, pieces)
    ensures |parts| == |pieces| && forall i :: 0 <= i < |parts| ==> parts[i] == Of(pieces[i])
  {
    parts, pieces := Cut(text, cs);
    AllCut(cs, pieces);
    if parts == [] {
      parts, pieces := [[]], [[]];
    }
    PartsOfPieces(cs, parts, pieces);
  }
}

/** The extension: one lasting channel, answers glued back from their parts. */
module NativeChannel {
  import opened Wrappers
  import opened Utf8
  import NativeHost

  type Chars = seq<Scalar>

  /** A sparse array. */
  type Parts = seq<Option<Chars>>

  datatype Frame = Frame(id: nat, part: nat, of: nat, data: Chars)
  /** What a whole answer says: a value, or an error. */
  datatype Reply = Reply(ok: bool, body: Chars)

  /** JSON: None when the text is none, or no answer. */
  type Parse = Chars -> Option<Reply>

  /** Resolved with the value, failed with the error of the host, or rejected:
      no channel, or an answer that cannot be read. */
  datatype Outcome = Resolved(value: Chars) | Failed(error: Chars) | Rejected
  type Settled = (nat, Outcome)

  datatype State = State(nextId: nat, pending: map<nat, Parts>, settled: seq<Settled>)

  /** A request is sent, or the channel cannot be opened for it. */
  datatype Event = Ask(sent: bool) | Got(frame: Frame) | Lost

  const START := State(1, map[], [])

  /** The part set at its place; those skipped are holes. */
  function Put(parts: Parts, i: nat, data: Chars): (r: Parts)
    ensures i < |r| && r[i] == Some(data)
    ensures |r| == if i < |parts| then |parts| else i + 1
    ensures forall j :: 0 <= j < |r| && j != i ==> r[j] == if j < |parts| then parts[j] else None
  {
    if i < |parts| then parts[i := Some(data)]
    else parts + seq(i - |parts|, _ => None) + [Some(data)]
  }

  /** How many are not holes. */
  function Count(parts: Parts): (n: nat)
    ensures n <= |parts|
    ensures n == |parts| <==> forall i :: 0 <= i < |parts| ==> parts[i].Some?
  {
    if parts == [] then 0
    else
      var n := |parts| - 1;
      assert parts == parts[..n] + [parts[n]];
      Count(parts[..n]) + if parts[n].Some? then 1 else 0
  }

  /** End to end, the holes empty. */
  function Joined(parts: Parts): Chars {
    if parts == [] then []
    else Joined(parts[..|parts| - 1]) + parts[|parts| - 1].GetOr([])
  }

  /** What comes of a whole answer. */
  function Answered(parse: Parse, text: Chars): Outcome {
    match parse(text)
    case Some(Reply(true, value)) => Resolved(value)
    case Some(Reply(false, error)) => Failed(error)
    case None => Rejected
  }

  function Waiting(pending: map<nat, Parts>, n: nat): (ids: seq<nat>)
    ensures forall id :: id in ids <==> id in pending && id < n
    ensures forall i, j :: 0 <= i < j < |ids| ==> ids[i] < ids[j]
  {
    if n == 0 then []
    else
      var before := Waiting(pending, n - 1);
      assert forall i :: 0 <= i < |before| ==> before[i] in before;
      if n - 1 in pending then before + [n - 1] else before
  }

  function Rejections(ids: seq<nat>): (r: seq<Settled>)
    ensures |r| == |ids| && forall i :: 0 <= i < |ids| ==> r[i] == (ids[i], Rejected)
  {
    seq(|ids|, i requires 0 <= i < |ids| => (ids[i], Rejected))
  }

  function Receive(parse: Parse, st: State, m: Frame): State {
    if m.id !in st.pending then st
    else
      var parts := Put(st.pending[m.id], m.part, m.data);
      if Count(parts) < m.of then st.(pending := st.pending[m.id := parts])
      else st.(pending := st.pending - {m.id}, settled := st.settled + [(m.id, Answered(parse, Joined(parts)))])
  }

  function Step(parse: Parse, st: State, e: Event): State {
    match e
    case Ask(true) => State(st.nextId + 1, st.pending[st.nextId := []], st.settled)
    case Ask(false) => State(st.nextId + 1, st.pending - {st.nextId}, st.settled + [(st.nextId, Rejected)])
    case Got(m) => Receive(parse, st, m)
    case Lost => State(st.nextId, map[], st.settled + Rejections(Waiting(st.pending, st.nextId)))
  }

  function Run(parse: Parse, events: seq<Event>): State {
    if events == [] then START else Step(parse, Run(parse, events[..|events| - 1]), events[|events| - 1])
  }

  class Channel {
    var nextId: nat
    var pending: map<nat, Parts>
    var settled: seq<Settled>
    const parse: Parse

    ghost function Now(): State
      reads this
    {
      State(nextId, pending, settled)
    }

    constructor (parse: Parse)
      ensures Now() == START && this.parse == parse
    {
      this.parse := parse;
      nextId, pending, settled := 1, map[], [];
    }

    /** A request that cannot be sent is rejected at once. */
    method Send(sent: bool) returns (id: nat)
      modifies this
      ensures Now() == Step(parse, old(Now()), Ask(sent)) && id == old(nextId)
    {
      id := nextId;
      nextId := nextId + 1;
      pending := pending[id := []];
      if !sent {
        pending := pending - {id};
        assert pending == old(pending) - {id};
        settled := settled + [(id, Rejected)];
      }
    }

    method OnMessage(m: Frame)
      modifies this
      ensures Now() == Step(parse, old(Now()), Got(m))
    {
      if m.id !in pending {
        return;
      }
      var parts := Put(pending[m.id], m.part, m.data);
      pending := pending[m.id := parts];
      if Count(parts) < m.of {
        return;
      }
      pending := pending - {m.id};
      assert pending == old(pending) - {m.id};
      var reply := parse(Joined(parts));
      if reply.None? {
        settled := settled + [(m.id, Rejected)];
      } else if reply.value.ok {
        settled := settled + [(m.id, Resolved(reply.value.body))];
      } else {
        settled := settled + [(m.id, Failed(reply.value.body))];
      }
    }

    method OnDisconnect()
      modifies this
      ensures Now() == Step(parse, old(Now()), Lost)
    {
      var ids := Waiting(pending, nextId);
      for i := 0 to |ids|
        invariant nextId == old(nextId) && pending == old(pending)
        invariant settled == old(settled) + Rejections(ids)[..i]
      {
        settled := settled + [(ids[i], Rejected)];
      }
      pending := map[];
    }
  }

  // ---- every request is settled once ---------------------------------------------------------

  ghost predicate IsSettled(st: State, id: nat) { exists i :: 0 <= i < |st.settled| && st.settled[i].0 == id }

  ghost predicate Once(settled: seq<Settled>) {
    forall i, j :: 0 <= i < j < |settled| ==> settled[i].0 != settled[j].0
  }

  /** Each request made is either waiting or settled, once. */
  ghost predicate Consistent(st: State) {
    && 1 <= st.nextId && Once(st.settled)
    && (forall id: nat :: id in st.pending || IsSettled(st, id) <==> 1 <= id < st.nextId)
    && (forall id :: id in st.pending ==> !IsSettled(st, id))
  }

  lemma SettleMore(st: State, more: seq<Settled>)
    requires Once(st.settled) && Once(more)
    requires forall i :: 0 <= i < |more| ==> !IsSettled(st, more[i].0)
    ensures Once(st.settled + more)
    ensures forall p: map<nat, Parts>, n: nat, id: nat ::
              IsSettled(State(n, p, st.settled + more), id)
              <==> IsSettled(st, id) || exists i :: 0 <= i < |more| && more[i].0 == id
  {
    var all := st.settled + more;
    forall i, j | 0 <= i < j < |all| ensures all[i].0 != all[j].0 {
      if i < |st.settled| <= j {
        assert st.settled[i].0 == all[i].0 && more[j - |st.settled|] == all[j];
      }
    }
    forall p: map<nat, Parts>, n: nat, id: nat
      ensures IsSettled(State(n, p, all), id) <==> IsSettled(st, id) || exists i :: 0 <= i < |more| && more[i].0 == id
    {
      if i :| 0 <= i < |st.settled| && st.settled[i].0 == id {
        assert all[i].0 == id;
      }
      if i :| 0 <= i < |more| && more[i].0 == id {
        assert all[|st.settled| + i].0 == id;
      }
    }
  }

  lemma ConsistentReceive(parse: Parse, st: State, m: Frame)
    requires Consistent(st) && m.id in st.pending
    ensures Consistent(Receive(parse, st, m))
  {
    var st' := Receive(parse, st, m);
    var more := [(m.id, Answered(parse, Joined(Put(st.pending[m.id], m.part, m.data))))];
    SettleMore(st, more);
    assert more[0].0 == m.id;
    if Count(Put(st.pending[m.id], m.part, m.data)) < m.of {
      forall id ensures IsSettled(st', id) <==> IsSettled(st, id) {}
      forall id ensures id in st'.pending <==> id in st.pending {}
    } else {
      forall id ensures IsSettled(st', id) <==> IsSettled(st, id) || id == m.id {}
      forall id ensures id in st'.pending <==> id in st.pending && id != m.id {}
    }
  }

  lemma ConsistentLost(parse: Parse, st: State)
    requires Consistent(st)
    ensures Consistent(Step(parse, st, Lost))
  {
    var ids := Waiting(st.pending, st.nextId);
    var more := Rejections(ids);
    SettleMore(st, more);
    forall i | 0 <= i < |more| ensures more[i].0 in st.pending {
      assert ids[i] in ids;
    }
    forall id | id in st.pending ensures exists i :: 0 <= i < |more| && more[i].0 == id {
      assert id in ids;
      var i :| 0 <= i < |ids| && ids[i] == id;
      assert more[i].0 == id;
    }
    forall id ensures IsSettled(Step(parse, st, Lost), id) <==> IsSettled(st, id) || id in st.pending {}
  }

  lemma ConsistentRefused(parse: Parse, st: State)
    requires Consistent(st)
    ensures Consistent(Step(parse, st, Ask(false)))
  {
    var more := [(st.nextId, Rejected)];
    assert st.nextId !in st.pending && !IsSettled(st, st.nextId);
    SettleMore(st, more);
    assert more[0].0 == st.nextId;
    forall id ensures IsSettled(Step(parse, st, Ask(false)), id) <==> IsSettled(st, id) || id == st.nextId {}
  }

  lemma ConsistentStep(parse: Parse, st: State, e: Event)
    requires Consistent(st)
    ensures Consistent(Step(parse, st, e))
  {
    match e
    case Ask(true) =>
      forall id ensures IsSettled(Step(parse, st, e), id) <==> IsSettled(st, id) {}
    case Ask(false) => ConsistentRefused(parse, st);
    case Got(m) =>
      if m.id in st.pending {
        ConsistentReceive(parse, st, m);
      }
    case Lost => ConsistentLost(parse, st);
  }

  /** Whatever comes, frames of nothing asked, repeated or out of order,
      channels lost or never opened: no request is settled twice, none is
      forgotten. */
  lemma {:induction false} SettledOnce(parse: Parse, events: seq<Event>)
    ensures Consistent(Run(parse, events))
  {
    if events != [] {
      SettledOnce(parse, events[..|events| - 1]);
      ConsistentStep(parse, Run(parse, events[..|events| - 1]), events[|events| - 1]);
    }
  }

  // ---- answers arrive whole --------------------------------------------------------------------

  type Answers = nat -> seq<Chars>

  function PartOf(answers: Answers, id: nat, p: nat): Event
    requires p < |answers(id)|
  {
    Got(Frame(id, p, |answers(id)|, answers(id)[p]))
  }

  /** The frames are parts of the answers, each after its request: in any
      order, interleaved, perhaps repeated. Channels may be lost, and others
      opened. */
  ghost predicate Genuine(parse: Parse, events: seq<Event>, answers: Answers) {
    forall k :: 0 <= k < |events| && events[k].Got? ==>
                  var m := events[k].frame;
                  1 <= m.id < Run(parse, events[..k]).nextId && m.part < |answers(m.id)| && events[k] == PartOf(answers, m.id, m.part)
  }

  /** The channel of request `id` is lost, or could not be opened. */
  predicate Ends(st: State, e: Event, id: nat) {
    (e.Lost? && id < st.nextId) || (e == Ask(false) && id == st.nextId)
  }

  /** The events up to the end of the channel of request `id`. */
  function Heard(parse: Parse, events: seq<Event>, id: nat): (h: seq<Event>)
    ensures |h| <= |events|
  {
    if events == [] then []
    else
      var front, e := events[..|events| - 1], events[|events| - 1];
      var h := Heard(parse, front, id);
      if |h| < |front| || Ends(Run(parse, front), e, id) then h else events
  }

  ghost predicate Arrived(events: seq<Event>, answers: Answers, id: nat, p: nat) {
    p < |answers(id)| && PartOf(answers, id, p) in events
  }

  ghost predicate Complete(events: seq<Event>, answers: Answers, id: nat) {
    forall p :: 0 <= p < |answers(id)| ==> Arrived(events, answers, id, p)
  }

  /** The sparse array holds what arrived, at its place. */
  ghost predicate Holds(parts: Parts, events: seq<Event>, answers: Answers, id: nat) {
    && |parts| <= |answers(id)|
    && (forall p :: 0 <= p < |parts| && parts[p].Some? ==> parts[p] == Some(answers(id)[p]))
    && (forall p :: 0 <= p < |answers(id)| ==> (p < |parts| && parts[p].Some? <==> Arrived(events, answers, id, p)))
  }

  /** Settled with what the answer says when the parts heard are all of it,
      rejected when the channel ended before, waiting otherwise. */
  ghost predicate Tracks(parse: Parse, st: State, events: seq<Event>, answers: Answers, id: nat) {
    var heard := Heard(parse, events, id);
    if Complete(heard, answers, id) then (id, Answered(parse, Concat(answers(id)))) in st.settled && id !in st.pending
    else if |heard| < |events| then (id, Rejected) in st.settled && id !in st.pending
    else id in st.pending && Holds(st.pending[id], events, answers, id)
  }

  lemma {:induction false} JoinedIsConcat(parts: Parts, pieces: seq<Chars>)
    requires |parts| == |pieces| && forall p :: 0 <= p < |parts| ==> parts[p] == Some(pieces[p])
    ensures Joined(parts) == Concat(pieces)
  {
    if parts != [] {
      JoinedIsConcat(parts[..|parts| - 1], pieces[..|pieces| - 1]);
    }
  }

  /** One part more: the count tells whether they are all there. */
  lemma PutPart(parts: Parts, events: seq<Event>, answers: Answers, id: nat, p: nat)
    requires Holds(parts, events, answers, id) && p < |answers(id)|
    ensures var parts' := Put(parts, p, answers(id)[p]); var events' := events + [PartOf(answers, id, p)];
            && Holds(parts', events', answers, id)
            && (Count(parts') >= |answers(id)| <==> Complete(events', answers, id))
            && (Complete(events', answers, id) ==> Joined(parts') == Concat(answers(id)))
  {
    var parts' := Put(parts, p, answers(id)[p]);
    var events' := events + [PartOf(answers, id, p)];
    forall q | 0 <= q < |answers(id)|
      ensures q < |parts'| && parts'[q].Some? <==> Arrived(events', answers, id, q)
    {
      if q != p {
        assert PartOf(answers, id, q) != PartOf(answers, id, p);
        assert Arrived(events', answers, id, q) <==> Arrived(events, answers, id, q);
      } else {
        assert events'[|events|] == PartOf(answers, id, p);
      }
    }
    if Complete(events', answers, id) {
      assert Arrived(events', answers, id, |answers(id)| - 1);
      JoinedIsConcat(parts', answers(id));
    }
  }

  lemma ArrivedBefore(events: seq<Event>, e: Event, answers: Answers, id: nat)
    requires e.Got? ==> e.frame.id != id
    ensures forall p :: Arrived(events + [e], answers, id, p) <==> Arrived(events, answers, id, p)
    ensures Complete(events + [e], answers, id) <==> Complete(events, answers, id)
  {}

  lemma GenuineFront(parse: Parse, events: seq<Event>, e: Event, answers: Answers)
    requires Genuine(parse, events + [e], answers)
    ensures Genuine(parse, events, answers)
    ensures e.Got? ==> 1 <= e.frame.id < Run(parse, events).nextId && e.frame.part < |answers(e.frame.id)|
                       && e == PartOf(answers, e.frame.id, e.frame.part)
  {
    var all := events + [e];
    forall k | 0 <= k < |events| ensures all[k] == events[k] && all[..k] == events[..k] {}
    assert all[|events|] == e && all[..|events|] == events;
  }

  lemma HeardOneMore(parse: Parse, events: seq<Event>, e: Event, id: nat)
    ensures var heard := Heard(parse, events, id);
            Heard(parse, events + [e], id) == if |heard| < |events| || Ends(Run(parse, events), e, id) then heard else events + [e]
  {
    assert (events + [e])[..|events|] == events;
  }

  lemma {:induction false} HeardAll(parse: Parse, events: seq<Event>, id: nat)
    requires |Heard(parse, events, id)| == |events|
    ensures Heard(parse, events, id) == events
  {}

  /** Nothing ends for a request not made yet. */
  lemma {:induction false} HeardBefore(parse: Parse, events: seq<Event>, id: nat)
    requires Run(parse, events).nextId <= id
    ensures Heard(parse, events, id) == events
  {
    if events != [] {
      HeardBefore(parse, events[..|events| - 1], id);
    }
  }

  lemma TracksFrame(parse: Parse, st: State, events: seq<Event>, answers: Answers, id: nat, p: nat)
    requires Tracks(parse, st, events, answers, id) && Heard(parse, events, id) == events && p < |answers(id)| && st == Run(parse, events)
    ensures Tracks(parse, Step(parse, st, PartOf(answers, id, p)), events + [PartOf(answers, id, p)], answers, id)
  {
    var m := PartOf(answers, id, p).frame;
    var events' := events + [PartOf(answers, id, p)];
    HeardOneMore(parse, events, PartOf(answers, id, p), id);
    if id in st.pending {
      PutPart(st.pending[id], events, answers, id, p);
      var parts := Put(st.pending[id], p, m.data);
      if Complete(events', answers, id) {
        var st' := Receive(parse, st, m);
        assert st'.settled[|st.settled|] == (id, Answered(parse, Concat(answers(id))));
      }
    } else {
      forall q | 0 <= q < |answers(id)| ensures Arrived(events', answers, id, q) {
        assert Arrived(events, answers, id, q);
      }
    }
  }

  /** A request settled stays settled, and does not wait again. */
  lemma StaysSettled(parse: Parse, st: State, e: Event, id: nat)
    requires id < st.nextId
    ensures forall x :: x in st.settled ==> x in Step(parse, st, e).settled
    ensures id !in st.pending ==> id !in Step(parse, st, e).pending
  {}

  /** Another event leaves the request as it is. */
  lemma TracksOther(parse: Parse, st: State, events: seq<Event>, e: Event, answers: Answers, id: nat)
    requires Tracks(parse, st, events, answers, id) && Heard(parse, events, id) == events && st == Run(parse, events)
    requires !e.Lost? && id < st.nextId && (e.Got? ==> e.frame.id != id)
    ensures Tracks(parse, Step(parse, st, e), events + [e], answers, id)
  {
    ArrivedBefore(events, e, answers, id);
    HeardOneMore(parse, events, e, id);
    StaysSettled(parse, st, e, id);
    assert id in Step(parse, st, e).pending <==> id in st.pending;
    assert id in st.pending ==> Step(parse, st, e).pending[id] == st.pending[id];
  }

  /** The loss of the channel rejects the request if it was waiting. */
  lemma TracksLost(parse: Parse, st: State, events: seq<Event>, answers: Answers, id: nat)
    requires Tracks(parse, st, events, answers, id) && Heard(parse, events, id) == events && st == Run(parse, events) && id < st.nextId
    ensures Tracks(parse, Step(parse, st, Lost), events + [Lost], answers, id)
  {
    HeardOneMore(parse, events, Lost, id);
    StaysSettled(parse, st, Lost, id);
    if id in st.pending {
      var ids := Waiting(st.pending, st.nextId);
      assert id in ids;
      var i :| 0 <= i < |ids| && ids[i] == id;
      assert Step(parse, st, Lost).settled[|st.settled| + i] == (id, Rejected);
    }
  }

  lemma NotYetArrived(parse: Parse, events: seq<Event>, answers: Answers, id: nat, p: nat)
    requires Genuine(parse, events, answers) && id >= Run(parse, events).nextId
    ensures !Arrived(events, answers, id, p)
  {
    if Arrived(events, answers, id, p) {
      var k :| 0 <= k < |events| && events[k] == PartOf(answers, id, p);
      IdsGrow(parse, events, k);
      assert false;
    }
  }

  lemma {:induction false} IdsGrow(parse: Parse, events: seq<Event>, k: nat)
    requires k <= |events|
    ensures Run(parse, events[..k]).nextId <= Run(parse, events).nextId
  {
    if k < |events| {
      IdsGrow(parse, events[..|events| - 1], k);
      assert events[..|events| - 1][..k] == events[..k];
    } else {
      assert events[..k] == events;
    }
  }

  /** The request has just been made. */
  lemma TracksAsked(parse: Parse, events: seq<Event>, e: Event, answers: Answers, id: nat)
    requires Genuine(parse, events, answers) && id == Run(parse, events).nextId && e.Ask? && answers(id) != []
    ensures Tracks(parse, Step(parse, Run(parse, events), e), events + [e], answers, id)
  {
    forall p ensures !Arrived(events, answers, id, p) { NotYetArrived(parse, events, answers, id, p); }
    ArrivedBefore(events, e, answers, id);
    HeardBefore(parse, events, id);
    HeardOneMore(parse, events, e, id);
    assert !Arrived(events, answers, id, 0) && !Arrived(events + [e], answers, id, 0);
    assert !e.sent ==> Step(parse, Run(parse, events), e).settled[|Run(parse, events).settled|] == (id, Rejected);
  }

  lemma TracksStep(parse: Parse, events: seq<Event>, e: Event, answers: Answers, id: nat)
    requires Genuine(parse, events + [e], answers) && id < Run(parse, events).nextId && Tracks(parse, Run(parse, events), events, answers, id)
    ensures Tracks(parse, Step(parse, Run(parse, events), e), events + [e], answers, id)
  {
    var st := Run(parse, events);
    GenuineFront(parse, events, e, answers);
    if |Heard(parse, events, id)| < |events| {
      HeardOneMore(parse, events, e, id);
      StaysSettled(parse, st, e, id);
    } else {
      HeardAll(parse, events, id);
      if e.Lost? {
        TracksLost(parse, st, events, answers, id);
      } else if e.Got? && e.frame.id == id {
        TracksFrame(parse, st, events, answers, id, e.frame.part);
      } else {
        TracksOther(parse, st, events, e, answers, id);
      }
    }
  }

  /** A request is settled with what its whole answer says exactly when every
      part of it came before its channel ended; it is rejected when the channel
      ended before that; otherwise it waits, and keeps what came. */
  lemma {:induction false} AnswersArriveWhole(parse: Parse, events: seq<Event>, answers: Answers, id: nat)
    requires Genuine(parse, events, answers) && 1 <= id < Run(parse, events).nextId && answers(id) != []
    ensures Tracks(parse, Run(parse, events), events, answers, id)
  {
    if events != [] {
      var front, e := events[..|events| - 1], events[|events| - 1];
      assert events == front + [e];
      GenuineFront(parse, front, e, answers);
      if id == Run(parse, front).nextId {
        TracksAsked(parse, front, e, answers, id);
      } else {
        AnswersArriveWhole(parse, front, answers, id);
        TracksStep(parse, front, e, answers, id);
      }
    }
  }

  /** Request `id` is settled, once, with this outcome. */
  ghost predicate SettledAs(st: State, id: nat, outcome: Outcome) {
    exists i :: 0 <= i < |st.settled| && st.settled[i] == (id, outcome)
                && forall j :: 0 <= j < |st.settled| && st.settled[j].0 == id ==> j == i
  }

  lemma OnceSettled(st: State, id: nat, outcome: Outcome)
    requires Once(st.settled) && (id, outcome) in st.settled
    ensures SettledAs(st, id, outcome)
  {
    var i :| 0 <= i < |st.settled| && st.settled[i] == (id, outcome);
    assert forall j :: 0 <= j < |st.settled| && st.settled[j].0 == st.settled[i].0 ==> j == i;
  }

  /** With answers cut as the host cuts them, whatever channels are lost or
      opened: once every part came on the channel of the request, in any order,
      it has been settled once, with what its exact text says; if that channel
      ended before, it has been rejected once; otherwise it waits. */
  lemma EveryAnswerIsExact(parse: Parse, events: seq<Event>, answers: Answers, texts: nat -> Chars, id: nat)
    requires Genuine(parse, events, answers) && 1 <= id < Run(parse, events).nextId
    requires NativeHost.Pieces(texts(id), answers(id))
    ensures var st, heard := Run(parse, events), Heard(parse, events, id);
            if Complete(heard, answers, id) then
              SettledAs(st, id, match parse(texts(id))
                                case None => Rejected
                                case Some(r) => if r.ok then Resolved(r.body) else Failed(r.body))
            else if |heard| < |events| then SettledAs(st, id, Rejected)
            else id in st.pending && !IsSettled(st, id)
  {
    var st, heard := Run(parse, events), Heard(parse, events, id);
    AnswersArriveWhole(parse, events, answers, id);
    SettledOnce(parse, events);
    if Complete(heard, answers, id) {
      OnceSettled(st, id, Answered(parse, texts(id)));
    } else if |heard| < |events| {
      OnceSettled(st, id, Rejected);
    }
  }
}
