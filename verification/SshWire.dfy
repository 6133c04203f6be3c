/** The messages of the SSH agent: reading them, writing them, and splitting a
    stream into frames. */
module SshWire {
  import opened Wrappers
  import opened Seqs
  import opened Text
  import Utf8

  type Bytes = seq<byte>

  /** 256 KiB */
  const MAX_FRAME := 262144

  const REQUEST_IDENTITIES: byte := 11
  const IDENTITIES_ANSWER: byte := 12
  const SIGN_REQUEST: byte := 13
  const EXTENSION: byte := 27

  /** "session-bind@openssh.com" */
  const SESSION_BIND := Ascii("session-bind@openssh.com")

  function Ascii(s: string): (b: Bytes)
    ensures |b| == |s|
  {
    seq(|s|, i requires 0 <= i < |s| => s[i] as int % 0x100)
  }

  /** A string is its bytes, which are UTF-8. */
  datatype Request =
    | Identities
    | Sign(key: Bytes, data: Bytes, flags: nat)
    | SessionBind(hostKey: Bytes, sessionId: Bytes, signature: Bytes, forwarding: bool)
    | UnknownExtension(name: Bytes)
    | Other(kind: byte)

  // ---- what the reader finds ----------------------------------------------------------------

  function Big(b: Bytes): nat
    requires |b| == 4
  {
    ((b[0] as int * 0x100 + b[1] as int) * 0x100 + b[2] as int) * 0x100 + b[3] as int
  }

  /** Four bytes, big endian; larger numbers are cut. */
  function U32(n: nat): (b: Bytes)
    ensures |b| == 4
  {
    [n / 0x100_0000 % 0x100, n / 0x1_0000 % 0x100, n / 0x100 % 0x100, n % 0x100]
  }

  lemma BigOfU32(n: nat)
    requires n < 0x1_0000_0000
    ensures Big(U32(n)) == n
  {
    var a, b := n / 0x100, n / 0x1_0000;
    assert b == a / 0x100 && n / 0x100_0000 == b / 0x100;
  }

  lemma U32OfBig(b: Bytes)
    requires |b| == 4
    ensures Big(b) < 0x1_0000_0000 && U32(Big(b)) == b
  {
    var x, y := b[0] as int * 0x100 + b[1] as int, Big(b) / 0x100;
    assert y == x * 0x100 + b[2] as int;
    assert Big(b) / 0x1_0000 == y / 0x100 == x;
    assert Big(b) / 0x100_0000 == x / 0x100 == b[0] as int;
  }

  /** A reading: a value and what is left, or a failure and what is left. */
  datatype Read<T> = Got(value: T, rest: Bytes) | Short(rest: Bytes)

  function ReadU8(b: Bytes): Read<byte> { if b == [] then Short(b) else Got(b[0], b[1..]) }

  function ReadU32(b: Bytes): Read<nat> { if |b| < 4 then Short(b) else Got(Big(b[..4]), b[4..]) }

  /** When the length is there and the bytes are not, the length is lost. */
  function ReadBytes(b: Bytes): Read<Bytes> {
    match ReadU32(b)
    case Short(rest) => Short(rest)
    case Got(n, rest) => if |rest| < n then Short(rest) else Got(rest[..n], rest[n..])
  }

  function ReadString(b: Bytes): Read<Bytes> {
    match ReadBytes(b)
    case Short(rest) => Short(rest)
    case Got(s, rest) => if Utf8.Valid(s) then Got(s, rest) else Short(rest)
  }

  function ReadBool(b: Bytes): Read<bool> {
    match ReadU8(b)
    case Short(rest) => Short(rest)
    case Got(x, rest) => Got(x != 0, rest)
  }

  ghost predicate Reads<T>(r: Option<T>, left: Bytes, spec: Read<T>) {
    match spec
    case Got(value, rest) => r == Some(value) && left == rest
    case Short(rest) => r == None && left == rest
  }

  class Reader {
    var buf: Bytes

    constructor (buf: Bytes)
      ensures this.buf == buf
    {
      this.buf := buf;
    }

    method U8() returns (r: Option<byte>)
      modifies this
      ensures Reads(r, buf, ReadU8(old(buf)))
    {
      if buf == [] {
        return None;
      }
      r := Some(buf[0]);
      buf := buf[1..];
    }

    method U32() returns (r: Option<nat>)
      modifies this
      ensures Reads(r, buf, ReadU32(old(buf)))
    {
      if |buf| < 4 {
        return None;
      }
      var n := buf[..4];
      buf := buf[4..];
      return Some(Big(n));
    }

    method Bytes() returns (r: Option<Bytes>)
      modifies this
      ensures Reads(r, buf, ReadBytes(old(buf)))
    {
      var len := U32();
      if len.None? || |buf| < len.value {
        return None;
      }
      var s := buf[..len.value];
      buf := buf[len.value..];
      return Some(s);
    }

    method String() returns (r: Option<Bytes>)
      modifies this
      ensures Reads(r, buf, ReadString(old(buf)))
    {
      var s := Bytes();
      if s.None? || !Utf8.Valid(s.value) {
        return None;
      }
      return s;
    }

    method Bool() returns (r: Option<bool>)
      modifies this
      ensures Reads(r, buf, ReadBool(old(buf)))
    {
      var x := U8();
      return if x.None? then None else Some(x.value != 0);
    }
  }

  // ---- requests ---------------------------------------------------------------------------

  function ParseSign(b: Bytes): Option<Request> {
    var key := ReadBytes(b);
    if key.Short? then None
    else
      var data := ReadBytes(key.rest);
      if data.Short? then None
      else
        var flags := ReadU32(data.rest);
        Some(Sign(key.value, data.value, if flags.Got? then flags.value else 0))
  }

  function ParseBind(b: Bytes): Option<Request> {
    var hostKey := ReadBytes(b);
    if hostKey.Short? then None
    else
      var sessionId := ReadBytes(hostKey.rest);
      if sessionId.Short? then None
      else
        var signature := ReadBytes(sessionId.rest);
        if signature.Short? then None
        else
          var forwarding := ReadBool(signature.rest);
          if forwarding.Short? then None
          else Some(SessionBind(hostKey.value, sessionId.value, signature.value, forwarding.value))
  }

  function ParseExtension(b: Bytes): Option<Request> {
    var name := ReadString(b);
    if name.Short? then None
    else if name.value == SESSION_BIND then ParseBind(name.rest)
    else Some(UnknownExtension(name.value))
  }

  function ParseOf(payload: Bytes): Option<Request> {
    if payload == [] then None
    else if payload[0] == REQUEST_IDENTITIES then Some(Identities)
    else if payload[0] == SIGN_REQUEST then ParseSign(payload[1..])
    else if payload[0] == EXTENSION then ParseExtension(payload[1..])
    else Some(Other(payload[0]))
  }

  method ReadSign(reader: Reader) returns (r: Option<Request>)
    modifies reader
    ensures r == ParseSign(old(reader.buf))
  {
    var key := reader.Bytes();
    if key.None? { return None; }
    var data := reader.Bytes();
    if data.None? { return None; }
    var flags := reader.U32();
    return Some(Sign(key.value, data.value, flags.GetOr(0)));
  }

  method ReadBind(reader: Reader) returns (r: Option<Request>)
    modifies reader
    ensures r == ParseBind(old(reader.buf))
  {
    var hostKey := reader.Bytes();
    if hostKey.None? { return None; }
    var sessionId := reader.Bytes();
    if sessionId.None? { return None; }
    var signature := reader.Bytes();
    if signature.None? { return None; }
    var forwarding := reader.Bool();
    if forwarding.None? { return None; }
    return Some(SessionBind(hostKey.value, sessionId.value, signature.value, forwarding.value));
  }

  /** The content of a frame, as a request. */
  method Parse(payload: Bytes) returns (r: Option<Request>)
    ensures r == ParseOf(payload)
  {
    var reader := new Reader(payload);
    var kind := reader.U8();
    if kind.None? {
      return None;
    }
    if kind.value == REQUEST_IDENTITIES {
      return Some(Identities);
    } else if kind.value == SIGN_REQUEST {
      r := ReadSign(reader);
    } else if kind.value == EXTENSION {
      var name := reader.String();
      if name.None? { return None; }
      if name.value != SESSION_BIND {
        return Some(UnknownExtension(name.value));
      }
      r := ReadBind(reader);
    } else {
      return Some(Other(kind.value));
    }
  }

  // ---- writing ----------------------------------------------------------------------------

  /** A length and its bytes. */
  function Put(b: Bytes): Bytes { U32(|b|) + b }

  predicate Short32(b: Bytes) { |b| < 0x1_0000_0000 }

  lemma ReadPut(b: Bytes, rest: Bytes)
    requires Short32(b)
    ensures ReadBytes(Put(b) + rest) == Got(b, rest)
  {
    var s := Put(b) + rest;
    assert s[..4] == U32(|b|) && s[4..] == b + rest;
    BigOfU32(|b|);
    assert (b + rest)[..|b|] == b && (b + rest)[|b|..] == rest;
  }

  lemma PutOfRead(b: Bytes)
    requires ReadBytes(b).Got?
    ensures Short32(ReadBytes(b).value) && b == Put(ReadBytes(b).value) + ReadBytes(b).rest
  {
    U32OfBig(b[..4]);
    var n, rest := Big(b[..4]), b[4..];
    assert b == b[..4] + rest && rest == rest[..n] + rest[n..];
  }

  /** What a client sends. */
  function Encode(r: Request): Bytes {
    match r
    case Identities => [REQUEST_IDENTITIES]
    case Sign(key, data, flags) => [SIGN_REQUEST] + (Put(key) + (Put(data) + U32(flags)))
    case SessionBind(hostKey, sessionId, signature, forwarding) =>
      [EXTENSION] + (Put(SESSION_BIND) + (Put(hostKey) + (Put(sessionId) + (Put(signature) + [if forwarding then 1 else 0]))))
    case UnknownExtension(name) => [EXTENSION] + Put(name)
    case Other(kind) => [kind]
  }

  /** The requests that can be sent: lengths on 32 bits, names that are text. */
  predicate Sendable(r: Request) {
    match r
    case Identities => true
    case Sign(key, data, flags) => Short32(key) && Short32(data) && flags < 0x1_0000_0000
    case SessionBind(hostKey, sessionId, signature, _) => Short32(hostKey) && Short32(sessionId) && Short32(signature)
    case UnknownExtension(name) => Short32(name) && Utf8.Valid(name) && name != SESSION_BIND
    case Other(kind) => kind != REQUEST_IDENTITIES && kind != SIGN_REQUEST && kind != EXTENSION
  }

  lemma ReadFlags(flags: nat, rest: Bytes)
    requires flags < 0x1_0000_0000
    ensures ReadU32(U32(flags) + rest) == Got(flags, rest)
  {
    assert (U32(flags) + rest)[..4] == U32(flags);
    BigOfU32(flags);
  }

  lemma SessionBindIsText()
    ensures Utf8.Valid(SESSION_BIND) && Short32(SESSION_BIND)
  {
    AsciiIsText("session-bind@openssh.com");
  }

  lemma {:induction false} AsciiIsText(s: string)
    requires forall i :: 0 <= i < |s| ==> (s[i] as int) < 0x80
    ensures Utf8.Valid(Ascii(s))
  {
    if s != "" {
      AsciiIsText(s[1..]);
      assert Ascii(s)[1..] == Ascii(s[1..]);
    }
  }

  lemma SignParses(key: Bytes, data: Bytes, flags: nat, rest: Bytes)
    requires Short32(key) && Short32(data) && flags < 0x1_0000_0000
    ensures ParseSign(Put(key) + (Put(data) + U32(flags)) + rest) == Some(Sign(key, data, flags))
  {
    assert Put(key) + (Put(data) + U32(flags)) + rest == Put(key) + (Put(data) + (U32(flags) + rest));
    ReadPut(key, Put(data) + (U32(flags) + rest));
    ReadPut(data, U32(flags) + rest);
    ReadFlags(flags, rest);
  }

  lemma BindParses(hostKey: Bytes, sessionId: Bytes, signature: Bytes, flag: byte, rest: Bytes)
    requires Short32(hostKey) && Short32(sessionId) && Short32(signature)
    ensures ParseBind(Put(hostKey) + (Put(sessionId) + (Put(signature) + ([flag] + rest))))
            == Some(SessionBind(hostKey, sessionId, signature, flag != 0))
  {
    ReadPut(hostKey, Put(sessionId) + (Put(signature) + ([flag] + rest)));
    ReadPut(sessionId, Put(signature) + ([flag] + rest));
    ReadPut(signature, [flag] + rest);
  }

  lemma ExtensionParses(name: Bytes, rest: Bytes)
    requires Short32(name) && Utf8.Valid(name)
    ensures ParseExtension(Put(name) + rest) == if name == SESSION_BIND then ParseBind(rest) else Some(UnknownExtension(name))
  {
    ReadPut(name, rest);
  }

  lemma Kind(kind: byte, body: Bytes, rest: Bytes)
    ensures ([kind] + body + rest)[0] == kind && ([kind] + body + rest)[1..] == body + rest
  {}

  lemma KindParses(kind: byte, body: Bytes, rest: Bytes)
    ensures ParseOf([kind] + body + rest)
            == if kind == REQUEST_IDENTITIES then Some(Identities)
               else if kind == SIGN_REQUEST then ParseSign(body + rest)
               else if kind == EXTENSION then ParseExtension(body + rest)
               else Some(Other(kind))
  {
    Kind(kind, body, rest);
  }

  lemma BindInverts(hostKey: Bytes, sessionId: Bytes, signature: Bytes, flag: byte, rest: Bytes)
    requires Short32(hostKey) && Short32(sessionId) && Short32(signature)
    ensures ParseExtension(Put(SESSION_BIND) + (Put(hostKey) + (Put(sessionId) + (Put(signature) + [flag]))) + rest)
            == Some(SessionBind(hostKey, sessionId, signature, flag != 0))
  {
    var body := Put(hostKey) + (Put(sessionId) + (Put(signature) + [flag]));
    Regroup(Put(SESSION_BIND), body, rest, []);
    assert body + rest == Put(hostKey) + (Put(sessionId) + (Put(signature) + ([flag] + rest)));
    SessionBindIsText();
    ExtensionParses(SESSION_BIND, body + rest);
    BindParses(hostKey, sessionId, signature, flag, rest);
  }

  /** Every request is read back, whatever follows it in the frame. */
  lemma ParseInverts(r: Request, rest: Bytes)
    requires Sendable(r)
    ensures ParseOf(Encode(r) + rest) == Some(r)
  {
    match r
    case Identities => KindParses(REQUEST_IDENTITIES, [], rest);
    case Sign(key, data, flags) =>
      KindParses(SIGN_REQUEST, Put(key) + (Put(data) + U32(flags)), rest);
      SignParses(key, data, flags, rest);
    case SessionBind(hostKey, sessionId, signature, forwarding) =>
      var flag: byte := if forwarding then 1 else 0;
      KindParses(EXTENSION, Put(SESSION_BIND) + (Put(hostKey) + (Put(sessionId) + (Put(signature) + [flag]))), rest);
      BindInverts(hostKey, sessionId, signature, flag, rest);
    case UnknownExtension(name) =>
      KindParses(EXTENSION, Put(name), rest);
      ExtensionParses(name, rest);
    case Other(kind) => KindParses(kind, [], rest);
  }

  /** Exactly the frames a signature is asked by: missing flags are none. */
  lemma SignExactly(payload: Bytes, key: Bytes, data: Bytes, flags: nat)
    ensures ParseOf(payload) == Some(Sign(key, data, flags))
            <==> exists tail :: IsSign(payload, key, data, flags, tail)
  {
    if ParseOf(payload) == Some(Sign(key, data, flags)) {
      SignWritten(payload);
    }
    if tail :| IsSign(payload, key, data, flags, tail) {
      assert payload[1..] == Put(key) + (Put(data) + tail);
      ReadPut(key, Put(data) + tail);
      ReadPut(data, tail);
    }
  }

  lemma SignWritten(payload: Bytes)
    requires ParseOf(payload).Some? && ParseOf(payload).value.Sign?
    ensures var r := ParseOf(payload).value; exists tail :: IsSign(payload, r.key, r.data, r.flags, tail)
  {
    var r := ParseOf(payload).value;
    var b := payload[1..];
    PutOfRead(b);
    PutOfRead(ReadBytes(b).rest);
    HeadAndTail(payload);
    assert IsSign(payload, r.key, r.data, r.flags, ReadBytes(ReadBytes(b).rest).rest);
  }

  ghost predicate IsSign(payload: Bytes, key: Bytes, data: Bytes, flags: nat, tail: Bytes) {
    && payload == [SIGN_REQUEST] + (Put(key) + (Put(data) + tail)) && Short32(key) && Short32(data)
    && flags == if |tail| < 4 then 0 else Big(tail[..4])
  }

  ghost predicate IsBindBody(body: Bytes, hostKey: Bytes, sessionId: Bytes, signature: Bytes, flag: byte, tail: Bytes) {
    && body == Put(hostKey) + (Put(sessionId) + (Put(signature) + ([flag] + tail)))
    && Short32(hostKey) && Short32(sessionId) && Short32(signature)
  }

  ghost predicate IsBind(payload: Bytes, hostKey: Bytes, sessionId: Bytes, signature: Bytes, flag: byte, tail: Bytes) {
    exists body :: payload == [EXTENSION] + (Put(SESSION_BIND) + body) && IsBindBody(body, hostKey, sessionId, signature, flag, tail)
  }

  lemma BindBody(body: Bytes) returns (flag: byte, tail: Bytes)
    requires ParseBind(body).Some?
    ensures var r := ParseBind(body).value;
            r.SessionBind? && r.forwarding == (flag != 0) && IsBindBody(body, r.hostKey, r.sessionId, r.signature, flag, tail)
  {
    PutOfRead(body);
    var c := ReadBytes(body).rest;
    PutOfRead(c);
    var d := ReadBytes(c).rest;
    PutOfRead(d);
    var last := ReadBytes(d).rest;
    flag, tail := last[0], last[1..];
    HeadAndTail(last);
  }

  /** Exactly the frames that announce a server. */
  lemma BindExactly(payload: Bytes, hostKey: Bytes, sessionId: Bytes, signature: Bytes, forwarding: bool)
    ensures ParseOf(payload) == Some(SessionBind(hostKey, sessionId, signature, forwarding))
            <==> exists flag, tail :: IsBind(payload, hostKey, sessionId, signature, flag, tail) && forwarding == (flag != 0)
  {
    if ParseOf(payload) == Some(SessionBind(hostKey, sessionId, signature, forwarding)) {
      BindWritten(payload);
    }
    if flag, tail :| IsBind(payload, hostKey, sessionId, signature, flag, tail) && forwarding == (flag != 0) {
      var body :| payload == [EXTENSION] + (Put(SESSION_BIND) + body) && IsBindBody(body, hostKey, sessionId, signature, flag, tail);
      SessionBindIsText();
      assert payload[1..] == Put(SESSION_BIND) + body;
      ExtensionParses(SESSION_BIND, body);
      BindParses(hostKey, sessionId, signature, flag, tail);
    }
  }

  lemma BindWritten(payload: Bytes)
    requires ParseOf(payload).Some? && ParseOf(payload).value.SessionBind?
    ensures var r := ParseOf(payload).value;
            exists flag, tail :: IsBind(payload, r.hostKey, r.sessionId, r.signature, flag, tail) && r.forwarding == (flag != 0)
  {
    var r := ParseOf(payload).value;
    var body := BindPayload(payload);
    var flag, tail := BindBody(body);
    assert IsBind(payload, r.hostKey, r.sessionId, r.signature, flag, tail);
  }

  lemma BindPayload(payload: Bytes) returns (body: Bytes)
    requires ParseOf(payload).Some? && ParseOf(payload).value.SessionBind?
    ensures payload == [EXTENSION] + (Put(SESSION_BIND) + body) && ParseBind(body) == ParseOf(payload)
  {
    HeadAndTail(payload);
    PutOfRead(payload[1..]);
    body := ReadBytes(payload[1..]).rest;
  }

  // ---- the bytes in full ----------------------------------------------------------------------

  /** A text of ASCII characters is its codes. */
  lemma AsciiInFull(s: string)
    requires forall i :: 0 <= i < |s| ==> (s[i] as int) < 0x80
    ensures |Ascii(s)| == |s| && forall i :: 0 <= i < |s| ==> Ascii(s)[i] as int == s[i] as int
  {}

  /** Four bytes that say `n`, the most significant first. */
  predicate Says(b: Bytes, n: nat) {
    |b| == 4 && b[0] as int * 16777216 + b[1] as int * 65536 + b[2] as int * 256 + b[3] as int == n
  }

  lemma U32InFull(n: nat)
    requires n < 0x1_0000_0000
    ensures Says(U32(n), n)
  {
    BigOfU32(n);
  }

  /** The length, the most significant byte first, then the bytes. */
  lemma PutInFull(b: Bytes)
    requires Short32(b)
    ensures Put(b)[4..] == b && Says(Put(b)[..4], |b|)
  {
    U32InFull(|b|);
  }

  /** The requests in full: 11, 13 and its two strings and flags, 27 and its
      name, alone or with the strings of a session binding. */
  lemma RequestsInFull(r: Request)
    ensures Encode(r)
            == match r
               case Identities => [11]
               case Sign(key, data, flags) => [13] + (Put(key) + (Put(data) + U32(flags)))
               case SessionBind(hostKey, sessionId, signature, forwarding) =>
                 [27] + (Put(Ascii("session-bind@openssh.com"))
                         + (Put(hostKey) + (Put(sessionId) + (Put(signature) + [if forwarding then 1 else 0]))))
               case UnknownExtension(name) => [27] + Put(name)
               case Other(kind) => [kind]
  {}

  // ---- frames -------------------------------------------------------------------------------

  function Frame(payload: Bytes): Bytes { U32(|payload|) + payload }

  predicate Framed(payload: Bytes) { 1 <= |payload| <= MAX_FRAME }

  /** The next frame of a stream, if the server takes it. */
  function NextFrame(stream: Bytes): (r: Option<(Bytes, Bytes)>)
    ensures r.Some? ==> |r.value.1| < |stream|
  {
    if |stream| < 4 then None
    else
      var n, rest := Big(stream[..4]), stream[4..];
      if n == 0 || n > MAX_FRAME || |rest| < n then None else Some((rest[..n], rest[n..]))
  }

  /** The payloads the server sees before it hangs up. */
  function Payloads(stream: Bytes): seq<Bytes>
    decreases |stream|
  {
    var next := NextFrame(stream);
    if next.None? then [] else [next.value.0] + Payloads(next.value.1)
  }

  function Frames(payloads: seq<Bytes>): Bytes {
    if payloads == [] then [] else Frame(payloads[0]) + Frames(payloads[1..])
  }

  lemma FrameReads(payload: Bytes, rest: Bytes)
    requires Framed(payload)
    ensures NextFrame(Frame(payload) + rest) == Some((payload, rest))
  {
    var s := Frame(payload) + rest;
    assert s[..4] == U32(|payload|) && s[4..] == payload + rest;
    BigOfU32(|payload|);
    assert (payload + rest)[..|payload|] == payload && (payload + rest)[|payload|..] == rest;
  }

  lemma FrameOfRead(stream: Bytes)
    requires NextFrame(stream).Some?
    ensures var (payload, rest) := NextFrame(stream).value; Framed(payload) && stream == Frame(payload) + rest
  {
    U32OfBig(stream[..4]);
    var n, rest := Big(stream[..4]), stream[4..];
    assert stream == stream[..4] + rest && rest == rest[..n] + rest[n..];
  }

  /** A frame is taken exactly when its length is there, between 1 and 256 KiB,
      and its content after it. */
  lemma FramesInFull(stream: Bytes, payload: Bytes, rest: Bytes)
    ensures NextFrame(stream) == Some((payload, rest)) <==>
            1 <= |payload| <= 262144 && exists len: Bytes :: Says(len, |payload|) && stream == len + payload + rest
  {
    if NextFrame(stream) == Some((payload, rest)) {
      FrameOfRead(stream);
      U32InFull(|payload|);
      assert stream == U32(|payload|) + payload + rest;
    }
    if len: Bytes :| 1 <= |payload| <= 262144 && Says(len, |payload|) && stream == len + payload + rest {
      U32OfBig(len);
      assert stream == Frame(payload) + rest;
      FrameReads(payload, rest);
    }
  }

  /** Frames in a row are seen one by one, then whatever follows. */
  lemma {:induction false} FramesAreSplit(payloads: seq<Bytes>, tail: Bytes)
    requires forall i :: 0 <= i < |payloads| ==> Framed(payloads[i])
    ensures Payloads(Frames(payloads) + tail) == payloads + Payloads(tail)
  {
    if payloads == [] {
      assert Frames(payloads) + tail == tail;
    } else {
      var p, t := payloads[0], payloads[1..];
      FirstFrame(payloads, tail);
      NextPayload(p, Frames(t) + tail);
      FramesAreSplit(t, tail);
      FirstApart(payloads, Payloads(tail));
    }
  }

  lemma FirstFrame(payloads: seq<Bytes>, tail: Bytes)
    requires payloads != []
    ensures Frames(payloads) + tail == Frame(payloads[0]) + (Frames(payloads[1..]) + tail)
  {}

  lemma FirstApart(payloads: seq<Bytes>, more: seq<Bytes>)
    requires payloads != []
    ensures [payloads[0]] + (payloads[1..] + more) == payloads + more
  {}

  lemma NextPayload(payload: Bytes, rest: Bytes)
    requires Framed(payload)
    ensures Payloads(Frame(payload) + rest) == [payload] + Payloads(rest)
  {
    FrameReads(payload, rest);
  }

  /** What is seen of a stream is its longest run of acceptable frames. */
  lemma {:induction false} PayloadsAreFrames(stream: Bytes) returns (tail: Bytes)
    ensures stream == Frames(Payloads(stream)) + tail && NextFrame(tail).None?
    ensures forall i :: 0 <= i < |Payloads(stream)| ==> Framed(Payloads(stream)[i])
    decreases |stream|
  {
    var next := NextFrame(stream);
    if next.None? {
      tail := stream;
      assert stream == [] + tail;
    } else {
      FrameOfRead(stream);
      tail := PayloadsAreFrames(next.value.1);
      var ps := Payloads(next.value.1);
      assert Payloads(stream)[1..] == ps;
      assert stream == Frame(next.value.0) + (Frames(ps) + tail);
      assert Frame(next.value.0) + (Frames(ps) + tail) == Frame(next.value.0) + Frames(ps) + tail;
    }
  }

  /** The answers to a run of payloads, the session going from one to the next. */
  function Replies<S>(handle: (S, Bytes) -> (S, Bytes), session: S, payloads: seq<Bytes>): (seq<Bytes>, S) {
    if payloads == [] then ([], session)
    else
      var (next, reply) := handle(session, payloads[0]);
      var (others, last) := Replies(handle, next, payloads[1..]);
      ([reply] + others, last)
  }

  lemma {:induction false} FramesOfOneMore(payloads: seq<Bytes>, payload: Bytes)
    ensures Frames(payloads + [payload]) == Frames(payloads) + Frame(payload)
  {
    if payloads == [] {
      assert Frames([payload]) == Frame(payload) + Frames([payload][1..]);
    } else {
      assert (payloads + [payload])[1..] == payloads[1..] + [payload];
      FramesOfOneMore(payloads[1..], payload);
      assert (payloads + [payload])[0] == payloads[0];
    }
  }

  /** Reads a frame, answers it, and again, until the client hangs up or sends
      a frame that is refused. */
  method Serve<S>(handle: (S, Bytes) -> (S, Bytes), start: S, stream: Bytes) returns (out: Bytes, session: S)
    ensures out == Frames(Replies(handle, start, Payloads(stream)).0)
    ensures session == Replies(handle, start, Payloads(stream)).1
  {
    out, session := [], start;
    var rest := stream;
    ghost var done: seq<Bytes> := [];
    ghost var all := Replies(handle, start, Payloads(stream));
    assert all.0 == [] + Replies(handle, session, Payloads(rest)).0;
    while true
      invariant out == Frames(done)
      invariant all == (done + Replies(handle, session, Payloads(rest)).0, Replies(handle, session, Payloads(rest)).1)
      decreases |rest|
    {
      var next := NextFrame(rest);
      if next.None? {
        assert done + [] == done;
        return;
      }
      var (payload, after) := next.value;
      assert Payloads(rest)[1..] == Payloads(after);
      var (session', reply) := handle(session, payload);
      FramesOfOneMore(done, reply);
      ghost var others := Replies(handle, session', Payloads(after)).0;
      assert done + ([reply] + others) == done + [reply] + others;
      out, session, rest := out + Frame(reply), session', after;
      done := done + [reply];
    }
  }

  // ---- answers ----------------------------------------------------------------------------------

  datatype Identity = Identity(blob: Bytes, comment: Bytes)

  function PutIdentities(ids: seq<Identity>): Bytes {
    if ids == [] then []
    else PutIdentities(ids[..|ids| - 1]) + Put(ids[|ids| - 1].blob) + Put(ids[|ids| - 1].comment)
  }

  method IdentitiesAnswer(ids: seq<Identity>) returns (out: Bytes)
    ensures out == [IDENTITIES_ANSWER] + U32(|ids|) + PutIdentities(ids) && out[0] == 12
  {
    out := [IDENTITIES_ANSWER] + U32(|ids|);
    for i := 0 to |ids|
      invariant out == [IDENTITIES_ANSWER] + U32(|ids|) + PutIdentities(ids[..i])
    {
      assert ids[..i + 1][..i] == ids[..i];
      out := out + Put(ids[i].blob) + Put(ids[i].comment);
    }
    assert ids[..|ids|] == ids;
  }

  /** A client that reads `n` identities. */
  function ReadIdentities(n: nat, b: Bytes): Option<(seq<Identity>, Bytes)> {
    if n == 0 then Some(([], b))
    else
      var before := ReadIdentities(n - 1, b);
      if before.None? then None
      else
        var blob := ReadBytes(before.value.1);
        if blob.Short? then None
        else
          var comment := ReadBytes(blob.rest);
          if comment.Short? then None
          else Some((before.value.0 + [Identity(blob.value, comment.value)], comment.rest))
  }

  lemma LastIdentityIsRead(n: nat, b: Bytes, front: seq<Identity>, last: Identity, rest: Bytes)
    requires Short32(last.blob) && Short32(last.comment)
    requires ReadIdentities(n, b) == Some((front, Put(last.blob) + (Put(last.comment) + rest)))
    ensures ReadIdentities(n + 1, b) == Some((front + [last], rest))
  {
    ReadPut(last.blob, Put(last.comment) + rest);
    ReadPut(last.comment, rest);
  }

  lemma {:induction false} IdentitiesAreRead(ids: seq<Identity>, rest: Bytes)
    requires forall i :: 0 <= i < |ids| ==> Short32(ids[i].blob) && Short32(ids[i].comment)
    ensures ReadIdentities(|ids|, PutIdentities(ids) + rest) == Some((ids, rest))
  {
    if ids == [] {
      assert PutIdentities(ids) + rest == rest;
    } else {
      var front, last := ids[..|ids| - 1], ids[|ids| - 1];
      var after := Put(last.blob) + (Put(last.comment) + rest);
      assert ids == front + [last];
      Regroup(PutIdentities(front), Put(last.blob), Put(last.comment), rest);
      IdentitiesAreRead(front, after);
      LastIdentityIsRead(|front|, PutIdentities(ids) + rest, front, last, rest);
    }
  }
}

/** What is being signed, as the user is told. */
module SshPurpose {
  import opened Seqs
  import opened Wrappers
  import opened Text
  import opened SshWire
  import Utf8

  const USERAUTH_REQUEST: byte := 50

  /** "SSHSIG" */
  const SSHSIG: Bytes := [0x53, 0x53, 0x48, 0x53, 0x49, 0x47]

  const PUBLICKEY := Ascii("publickey")
  const HOSTBOUND := Ascii("publickey-hostbound-v00@openssh.com")

  datatype Purpose =
    | SshLogin(sessionId: Bytes, user: Bytes, hostKey: Option<Bytes>)
    | Sshsig(namespace: Bytes)
    | Unknown

  /** The fields of a login, then what follows. */
  datatype Login = Login(sessionId: Bytes, user: Bytes, service: Bytes, auth: Bytes, flag: byte, alg: Bytes, key: Bytes,
                         hostKey: Option<Bytes>, rest: Bytes)

  /** A public-key authentication request (section 7 of RFC 4252), or its
      host-bound variant. */
  function Written(l: Login): Bytes {
    Put(l.sessionId) + ([USERAUTH_REQUEST] + (Put(l.user) + (Put(l.service) + (Put(l.auth)
      + ([l.flag] + (Put(l.alg) + (Put(l.key) + ((if l.hostKey.Some? then Put(l.hostKey.value) else []) + l.rest))))))))
  }

  predicate Text32(b: Bytes) { Short32(b) && Utf8.Valid(b) }

  /** The fields are what a client can put there. */
  predicate PublicKey(l: Login) {
    && Short32(l.sessionId) && Text32(l.user) && Text32(l.service) && Text32(l.auth) && Text32(l.alg) && Short32(l.key)
    && PUBLICKEY <= l.auth && l.flag != 0
    && (l.hostKey.Some? <==> l.auth == HOSTBOUND) && (l.hostKey.Some? ==> Short32(l.hostKey.value))
  }

  // ---- reading a login ---------------------------------------------------------------------------

  function ReadTail(l: Login, b: Bytes): Option<Login> {
    if l.auth == HOSTBOUND then
      var hostKey := ReadBytes(b);
      if hostKey.Short? then None else Some(l.(hostKey := Some(hostKey.value), rest := hostKey.rest))
    else Some(l.(hostKey := None, rest := b))
  }

  function ReadKey(l: Login, b: Bytes): Option<Login> {
    var alg := ReadString(b);
    if alg.Short? then None
    else
      var key := ReadBytes(alg.rest);
      if key.Short? then None else ReadTail(l.(alg := alg.value, key := key.value), key.rest)
  }

  function ReadAuth(l: Login, b: Bytes): Option<Login> {
    var auth := ReadString(b);
    if auth.Short? || !(PUBLICKEY <= auth.value) then None
    else
      var flag := ReadU8(auth.rest);
      if flag.Short? || flag.value == 0 then None else ReadKey(l.(auth := auth.value, flag := flag.value), flag.rest)
  }

  function ReadUser(l: Login, b: Bytes): Option<Login> {
    var user := ReadString(b);
    if user.Short? then None
    else
      var service := ReadString(user.rest);
      if service.Short? then None else ReadAuth(l.(user := user.value, service := service.value), service.rest)
  }

  const BLANK := Login([], [], [], [], 0, [], [], None, [])

  function ReadLogin(b: Bytes): Option<Login> {
    var sessionId := ReadBytes(b);
    if sessionId.Short? then None
    else
      var kind := ReadU8(sessionId.rest);
      if kind.Short? || kind.value != USERAUTH_REQUEST then None
      else ReadUser(BLANK.(sessionId := sessionId.value), kind.rest)
  }

  function DescribeOf(data: Bytes): Purpose {
    if SSHSIG <= data then
      var namespace := ReadString(data[6..]);
      if namespace.Got? then Sshsig(namespace.value) else Unknown
    else
      var login := ReadLogin(data);
      if login.None? then Unknown else SshLogin(login.value.sessionId, login.value.user, login.value.hostKey)
  }

  function Said(login: Option<Login>): Option<Purpose> {
    if login.None? then None else Some(SshLogin(login.value.sessionId, login.value.user, login.value.hostKey))
  }

  /** From the algorithm on. */
  method ParseKey(r: Reader, l: Login) returns (p: Option<Purpose>)
    modifies r
    ensures p == Said(ReadKey(l, old(r.buf)))
  {
    var alg := r.String();
    if alg.None? { return None; }
    var key := r.Bytes();
    if key.None? { return None; }
    if l.auth != HOSTBOUND {
      return Some(SshLogin(l.sessionId, l.user, None));
    }
    var hostKey := r.Bytes();
    if hostKey.None? { return None; }
    return Some(SshLogin(l.sessionId, l.user, hostKey));
  }

  /** From the method on. */
  method ParseAuth(r: Reader, l: Login) returns (p: Option<Purpose>)
    modifies r
    ensures p == Said(ReadAuth(l, old(r.buf)))
  {
    var auth := r.String();
    if auth.None? || !(PUBLICKEY <= auth.value) { return None; }
    var rest := r.buf;
    var signed := r.Bool();
    if signed != Some(true) { return None; }
    p := ParseKey(r, l.(auth := auth.value, flag := ReadU8(rest).value));
  }

  /** From the user on. */
  method ParseUser(r: Reader, l: Login) returns (p: Option<Purpose>)
    modifies r
    ensures p == Said(ReadUser(l, old(r.buf)))
  {
    var user := r.String();
    if user.None? { return None; }
    var service := r.String();
    if service.None? { return None; }
    p := ParseAuth(r, l.(user := user.value, service := service.value));
  }

  /** The fields one after the other, each early exit meaning no login. */
  method ParseLogin(data: Bytes) returns (p: Option<Purpose>)
    ensures p == Said(ReadLogin(data))
  {
    var r := new Reader(data);
    var sessionId := r.Bytes();
    if sessionId.None? { return None; }
    var kind := r.U8();
    if kind != Some(USERAUTH_REQUEST) { return None; }
    p := ParseUser(r, BLANK.(sessionId := sessionId.value));
  }

  method Describe(data: Bytes) returns (p: Purpose)
    ensures p == DescribeOf(data)
  {
    if SSHSIG <= data {
      var r := new Reader(data[6..]);
      var namespace := r.String();
      return if namespace.Some? then Sshsig(namespace.value) else Unknown;
    }
    var login := ParseLogin(data);
    return login.GetOr(Unknown);
  }

  /** A login in full: the session, 50, the user, the service, the method, which
      is `publickey` or starts like it, a byte that is not 0, the algorithm, the
      key, and for the host-bound method the key of the host. */
  lemma LoginInFull(l: Login)
    requires PublicKey(l)
    ensures Written(l)
            == Put(l.sessionId) + ([50] + (Put(l.user) + (Put(l.service) + (Put(l.auth) + ([l.flag] + (Put(l.alg) + (Put(l.key)
                 + ((if l.auth == Ascii("publickey-hostbound-v00@openssh.com") then Put(l.hostKey.value) else []) + l.rest))))))))
    ensures l.flag != 0 && Ascii("publickey") <= l.auth
  {}

  // ---- exactly the logins -------------------------------------------------------------------------

  lemma TailReads(l: Login, blank: Login)
    requires PublicKey(l) && blank == l.(hostKey := None, rest := [])
    ensures ReadTail(blank, (if l.hostKey.Some? then Put(l.hostKey.value) else []) + l.rest) == Some(l)
  {
    if l.hostKey.Some? {
      ReadPut(l.hostKey.value, l.rest);
    } else {
      assert [] + l.rest == l.rest;
    }
  }

  lemma ReadPutString(s: Bytes, rest: Bytes)
    requires Text32(s)
    ensures ReadString(Put(s) + rest) == SshWire.Got(s, rest)
  {
    ReadPut(s, rest);
  }

  function End(l: Login): Bytes { (if l.hostKey.Some? then Put(l.hostKey.value) else []) + l.rest }

  function Keys(l: Login): Bytes { Put(l.alg) + (Put(l.key) + End(l)) }

  function Auth(l: Login): Bytes { Put(l.auth) + ([l.flag] + Keys(l)) }

  function Users(l: Login): Bytes { Put(l.user) + (Put(l.service) + Auth(l)) }

  lemma KeysRead(l: Login)
    requires PublicKey(l)
    ensures ReadKey(l.(alg := [], key := [], hostKey := None, rest := []), Keys(l)) == Some(l)
  {
    ReadPutString(l.alg, Put(l.key) + End(l));
    ReadPut(l.key, End(l));
    TailReads(l, l.(hostKey := None, rest := []));
  }

  lemma AuthReads(l: Login)
    requires PublicKey(l)
    ensures ReadAuth(BLANK.(sessionId := l.sessionId, user := l.user, service := l.service), Auth(l)) == Some(l)
  {
    ReadPutString(l.auth, [l.flag] + Keys(l));
    assert ReadU8([l.flag] + Keys(l)) == SshWire.Got(l.flag, Keys(l));
    KeysRead(l);
  }

  lemma UsersRead(l: Login)
    requires PublicKey(l)
    ensures ReadUser(BLANK.(sessionId := l.sessionId), Users(l)) == Some(l)
  {
    ReadPutString(l.user, Put(l.service) + Auth(l));
    ReadPutString(l.service, Auth(l));
    AuthReads(l);
  }

  /** A login is read back, with all its fields. */
  lemma LoginReads(l: Login)
    requires PublicKey(l)
    ensures ReadLogin(Written(l)) == Some(l)
  {
    ReadPut(l.sessionId, [USERAUTH_REQUEST] + Users(l));
    assert Written(l) == Put(l.sessionId) + ([USERAUTH_REQUEST] + Users(l));
    assert ReadU8([USERAUTH_REQUEST] + Users(l)) == SshWire.Got(USERAUTH_REQUEST, Users(l));
    UsersRead(l);
  }

  lemma PutOfString(b: Bytes)
    requires ReadString(b).Got?
    ensures Text32(ReadString(b).value) && b == Put(ReadString(b).value) + ReadString(b).rest
  {
    PutOfRead(b);
  }

  lemma TailWritten(l: Login, b: Bytes)
    requires ReadTail(l, b).Some?
    ensures var r := ReadTail(l, b).value;
            r == l.(hostKey := r.hostKey, rest := r.rest) && b == End(r)
            && (r.hostKey.Some? <==> l.auth == HOSTBOUND) && (r.hostKey.Some? ==> Short32(r.hostKey.value))
  {
    if l.auth == HOSTBOUND {
      PutOfRead(b);
    }
  }

  lemma KeysWritten(l: Login, b: Bytes)
    requires ReadKey(l, b).Some?
    ensures var r := ReadKey(l, b).value;
            r == l.(alg := r.alg, key := r.key, hostKey := r.hostKey, rest := r.rest) && b == Keys(r)
            && Text32(r.alg) && Short32(r.key)
            && (r.hostKey.Some? <==> l.auth == HOSTBOUND) && (r.hostKey.Some? ==> Short32(r.hostKey.value))
  {
    PutOfString(b);
    var c := ReadString(b).rest;
    PutOfRead(c);
    TailWritten(l.(alg := ReadString(b).value, key := ReadBytes(c).value), ReadBytes(c).rest);
  }

  lemma AuthWritten(l: Login, b: Bytes)
    requires ReadAuth(l, b).Some? && Short32(l.sessionId) && Text32(l.user) && Text32(l.service)
    ensures var r := ReadAuth(l, b).value;
            r.sessionId == l.sessionId && r.user == l.user && r.service == l.service && b == Auth(r) && PublicKey(r)
  {
    PutOfString(b);
    var c := ReadString(b).rest;
    HeadAndTail(c);
    KeysWritten(l.(auth := ReadString(b).value, flag := c[0]), c[1..]);
  }

  lemma UsersWritten(l: Login, b: Bytes)
    requires ReadUser(l, b).Some? && Short32(l.sessionId)
    ensures var r := ReadUser(l, b).value; r.sessionId == l.sessionId && b == Users(r) && PublicKey(r)
  {
    PutOfString(b);
    var c := ReadString(b).rest;
    PutOfString(c);
    AuthWritten(l.(user := ReadString(b).value, service := ReadString(c).value), ReadString(c).rest);
  }

  /** Whatever is read as a login is one, field by field. */
  lemma LoginWritten(b: Bytes)
    requires ReadLogin(b).Some?
    ensures PublicKey(ReadLogin(b).value) && Written(ReadLogin(b).value) == b
  {
    PutOfRead(b);
    var c := ReadBytes(b).rest;
    HeadAndTail(c);
    UsersWritten(BLANK.(sessionId := ReadBytes(b).value), c[1..]);
  }

  ghost predicate IsLogin(data: Bytes, l: Login) { PublicKey(l) && data == Written(l) }

  lemma StartOfSshsig(data: Bytes)
    ensures SSHSIG <= data ==> Big(data[..4]) == 0x53534853
  {
    if SSHSIG <= data {
      assert data[..4] == SSHSIG[..4];
    }
  }

  /** What fits in a frame and starts like a file signature is no login: its
      session id would be longer than the frame. */
  lemma NoLoginStartsLikeSshsig(data: Bytes, l: Login)
    requires |data| <= MAX_FRAME && IsLogin(data, l)
    ensures !(SSHSIG <= data)
  {
    StartOfSshsig(data);
    assert |Written(l)| >= |l.sessionId|;
    assert Written(l)[..4] == U32(|l.sessionId|);
    BigOfU32(|l.sessionId|);
  }

  /** What is said of a login is true, and every login is said: the session,
      the user and the host key are those of the only way to read the data. */
  lemma LoginExactly(data: Bytes, sessionId: Bytes, user: Bytes, hostKey: Option<Bytes>)
    ensures DescribeOf(data) == SshLogin(sessionId, user, hostKey)
            <==> !(SSHSIG <= data)
                 && exists l :: IsLogin(data, l) && l.sessionId == sessionId && l.user == user && l.hostKey == hostKey
  {
    if DescribeOf(data) == SshLogin(sessionId, user, hostKey) {
      LoginWritten(data);
      assert IsLogin(data, ReadLogin(data).value);
    }
    if l :| !(SSHSIG <= data) && IsLogin(data, l) && l.sessionId == sessionId && l.user == user && l.hostKey == hostKey {
      LoginReads(l);
    }
  }

  /** Every login that fits in a frame is reported, with exactly its fields. */
  lemma EveryLoginIsReported(data: Bytes, l: Login)
    requires |data| <= MAX_FRAME && IsLogin(data, l)
    ensures DescribeOf(data) == SshLogin(l.sessionId, l.user, l.hostKey)
  {
    NoLoginStartsLikeSshsig(data, l);
    LoginReads(l);
  }

  /** And every file signature, with its namespace, exactly. */
  lemma SshsigExactly(data: Bytes, namespace: Bytes)
    ensures DescribeOf(data) == Sshsig(namespace)
            <==> Text32(namespace) && exists rest :: data == Ascii("SSHSIG") + (Put(namespace) + rest)
  {
    assert SSHSIG == Ascii("SSHSIG");
    if DescribeOf(data) == Sshsig(namespace) {
      PutOfString(data[6..]);
      assert data == SSHSIG + data[6..];
      assert data == SSHSIG + (Put(namespace) + ReadString(data[6..]).rest);
    }
    if rest :| Text32(namespace) && data == SSHSIG + (Put(namespace) + rest) {
      assert data[6..] == Put(namespace) + rest && data[..6] == SSHSIG;
      ReadPutString(namespace, rest);
    }
  }
}
