/** The canonical CBOR encoder of the extension (attestation objects and COSE
    keys), against a decoder of RFC 8949. */
module Cbor {
  import opened Wrappers
  import opened Seqs
  import opened Text

  type Bytes = seq<byte>

  /** A string is its UTF-8 bytes; a map has its entries in insertion order. */
  datatype Value =
    | Int(n: int)
    | Bin(bytes: Bytes)
    | Str(utf8: Bytes)
    | Array(items: seq<Value>)
    | Map(entries: seq<Entry>)

  datatype Entry = Entry(key: Key, val: Value)
  datatype Key = IntKey(n: int) | StrKey(utf8: Bytes)

  /** Major type and argument, on 1, 2, 3 or 5 bytes; the shifts only see the
      low 32 bits of the argument. */
  function Head(major: nat, n: nat): (h: Bytes)
    requires major < 8
    ensures h != []
  {
    if n < 24 then [major * 32 + n]
    else if n < 0x100 then [major * 32 + 24, n]
    else if n < 0x10000 then [major * 32 + 25, n / 0x100, n % 0x100]
    else [major * 32 + 26, n / 0x1000000 % 0x100, n / 0x10000 % 0x100, n / 0x100 % 0x100, n % 0x100]
  }

  function EncodeInt(n: int): (b: Bytes)
    ensures b != []
  {
    if n >= 0 then Head(0, n) else Head(1, -1 - n)
  }

  function EncodeStr(utf8: Bytes): (b: Bytes)
    ensures b != []
  {
    Head(3, |utf8|) + utf8
  }

  function EncodeKey(k: Key): (b: Bytes)
    ensures b != []
  {
    match k
    case IntKey(n) => EncodeInt(n)
    case StrKey(s) => EncodeStr(s)
  }

  function ByteValue(): byte -> int { (b: byte) => b }

  /** Shorter first, then byte by byte. */
  predicate KeyAtMost(a: Bytes, b: Bytes) {
    |a| < |b| || (|a| == |b| && LexAtMost(a, b, ByteValue()))
  }

  type Encoded = (Bytes, Bytes)

  function ByKey(): (Encoded, Encoded) -> bool { (x: Encoded, y: Encoded) => KeyAtMost(x.0, y.0) }

  function Join(parts: seq<Bytes>): Bytes {
    if parts == [] then [] else parts[0] + Join(parts[1..])
  }

  function Pairs(entries: seq<Encoded>): Bytes {
    if entries == [] then [] else entries[0].0 + entries[0].1 + Pairs(entries[1..])
  }

  function Encode(v: Value): (b: Bytes)
    ensures b != []
  {
    match v
    case Int(n) => EncodeInt(n)
    case Bin(b) => Head(2, |b|) + b
    case Str(s) => EncodeStr(s)
    case Array(items) => Head(4, |items|) + Join(seq(|items|, i requires 0 <= i < |items| => Encode(items[i])))
    case Map(es) =>
      Head(5, |es|) + Pairs(Sort(seq(|es|, i requires 0 <= i < |es| => (EncodeKey(es[i].key), Encode(es[i].val))), ByKey()))
  }

  // ---- canonical values ------------------------------------------------------------------

  function ByEntryKey(): (Entry, Entry) -> bool { (x: Entry, y: Entry) => KeyAtMost(EncodeKey(x.key), EncodeKey(y.key)) }

  /** The same value, the entries of every map in encoding order. */
  function Canon(v: Value): Value {
    match v
    case Array(items) => Array(seq(|items|, i requires 0 <= i < |items| => Canon(items[i])))
    case Map(es) => Map(Sort(seq(|es|, i requires 0 <= i < |es| => Entry(es[i].key, Canon(es[i].val))), ByEntryKey()))
    case _ => v
  }

  predicate KeyFits(k: Key) {
    match k
    case IntKey(n) => -0x1_0000_0000 <= n < 0x1_0000_0000
    case StrKey(s) => |s| < 0x1_0000_0000
  }

  /** Every argument of a head is below 2^32. */
  predicate Fits(v: Value) {
    match v
    case Int(n) => -0x1_0000_0000 <= n < 0x1_0000_0000
    case Bin(b) => |b| < 0x1_0000_0000
    case Str(s) => |s| < 0x1_0000_0000
    case Array(items) => |items| < 0x1_0000_0000 && forall i :: 0 <= i < |items| ==> Fits(items[i])
    case Map(es) => |es| < 0x1_0000_0000 && forall i :: 0 <= i < |es| ==> KeyFits(es[i].key) && Fits(es[i].val)
  }

  // ---- a decoder -------------------------------------------------------------------------

  /** Big endian. */
  function Number(b: Bytes): (n: nat)
    ensures |b| <= 1 ==> n < 0x100
    ensures |b| <= 2 ==> n < 0x1_0000
    ensures |b| <= 3 ==> n < 0x100_0000
    ensures |b| <= 4 ==> n < 0x1_0000_0000
  {
    if b == [] then 0 else Number(b[..|b| - 1]) * 0x100 + b[|b| - 1]
  }

  lemma NumberOfTwo(b: Bytes)
    requires |b| == 2
    ensures Number(b) == b[0] as int * 0x100 + b[1] as int
  {
    assert b[..1][..0] == [];
    assert Number(b[..1]) == b[0] as int;
  }

  lemma NumberOfFour(b: Bytes)
    requires |b| == 4
    ensures Number(b) == b[0] as int * 0x1000000 + b[1] as int * 0x10000 + b[2] as int * 0x100 + b[3] as int
  {
    assert b[..3][..2] == b[..2];
    NumberOfTwo(b[..2]);
    assert Number(b[..3]) == Number(b[..2]) * 0x100 + b[2] as int;
  }

  /** Major type, argument, and what follows. */
  function ReadHead(b: Bytes): (r: Option<(nat, nat, Bytes)>)
    ensures r.Some? ==> r.value.0 < 8 && r.value.1 < 0x1_0000_0000 && |r.value.2| < |b|
  {
    if b == [] then None
    else
      var major, info := b[0] / 32, b[0] % 32;
      if info < 24 then Some((major, info, b[1..]))
      else if info == 24 && |b| >= 2 then Some((major, b[1], b[2..]))
      else if info == 25 && |b| >= 3 then Some((major, Number(b[1..3]), b[3..]))
      else if info == 26 && |b| >= 5 then Some((major, Number(b[1..5]), b[5..]))
      else None
  }

  function AsKey(v: Value): Option<Key> {
    match v
    case Int(n) => Some(IntKey(n))
    case Str(s) => Some(StrKey(s))
    case _ => None
  }

  function Decode(b: Bytes): (r: Option<(Value, Bytes)>)
    ensures r.Some? ==> |r.value.1| < |b|
    decreases |b|, 0
  {
    var h := ReadHead(b);
    if h.None? then None else DecodeBody(h.value.0, h.value.1, h.value.2)
  }

  /** What follows a head, by major type. */
  function DecodeBody(major: nat, n: nat, rest: Bytes): (r: Option<(Value, Bytes)>)
    ensures r.Some? ==> |r.value.1| <= |rest|
    decreases |rest|, 2
  {
    if major == 0 then Some((Int(n), rest))
    else if major == 1 then Some((Int(-1 - n), rest))
    else if major == 2 && n <= |rest| then Some((Bin(rest[..n]), rest[n..]))
    else if major == 3 && n <= |rest| then Some((Str(rest[..n]), rest[n..]))
    else if major == 4 then
      var items := DecodeItems(n, rest);
      if items.None? then None else Some((Array(items.value.0), items.value.1))
    else if major == 5 then
      var es := DecodeEntries(n, rest);
      if es.None? then None else Some((Map(es.value.0), es.value.1))
    else None
  }

  function DecodeItems(n: nat, b: Bytes): (r: Option<(seq<Value>, Bytes)>)
    ensures r.Some? ==> |r.value.1| <= |b| && |r.value.0| == n
    decreases |b|, 1
  {
    if n == 0 then Some(([], b))
    else
      var first := Decode(b);
      if first.None? then None
      else
        var others := DecodeItems(n - 1, first.value.1);
        if others.None? then None else Some(([first.value.0] + others.value.0, others.value.1))
  }

  function DecodeEntries(n: nat, b: Bytes): (r: Option<(seq<Entry>, Bytes)>)
    ensures r.Some? ==> |r.value.1| <= |b| && |r.value.0| == n
    decreases |b|, 1
  {
    if n == 0 then Some(([], b))
    else
      var key := Decode(b);
      if key.None? || AsKey(key.value.0).None? then None
      else
        var val := Decode(key.value.1);
        if val.None? then None
        else
          var others := DecodeEntries(n - 1, val.value.1);
          if others.None? then None
          else Some(([Entry(AsKey(key.value.0).value, val.value.0)] + others.value.0, others.value.1))
  }

  // ---- heads -----------------------------------------------------------------------------

  /** A head is read back, its argument modulo 2^32. */
  lemma HeadReads(major: nat, n: nat, rest: Bytes)
    requires major < 8
    ensures ReadHead(Head(major, n) + rest) == Some((major, n % 0x1_0000_0000, rest))
  {
    var h := Head(major, n);
    var b := h + rest;
    assert forall i :: 0 <= i < |h| ==> b[i] == h[i];
    assert b[|h|..] == rest;
    if n >= 0x10000 {
      LowBytes(n);
      NumberOfFour(b[1..5]);
    } else if n >= 0x100 {
      NumberOfTwo(b[1..3]);
    }
  }

  /** Heads in full (section 3 of RFC 8949): the major type in the three high
      bits, the argument in the low five or in the bytes that follow. */
  lemma HeadInFull(major: nat, n: nat)
    requires major < 8
    ensures var h := Head(major, n);
            && h[0] / 32 == major
            && (n < 24 ==> |h| == 1 && h[0] % 32 == n)
            && (24 <= n < 256 ==> |h| == 2 && h[0] % 32 == 24 && h[1] == n)
            && (256 <= n < 65536 ==> |h| == 3 && h[0] % 32 == 25 && h[1] as int * 256 + h[2] as int == n)
            && (n >= 65536 ==> |h| == 5 && h[0] % 32 == 26
                               && h[1] as int * 16777216 + h[2] as int * 65536 + h[3] as int * 256 + h[4] as int == n % 4294967296)
  {
    LowBytes(n);
  }

  lemma LowBytes(n: nat)
    ensures n / 0x1000000 % 0x100 * 0x1000000 + n / 0x10000 % 0x100 * 0x10000 + n / 0x100 % 0x100 * 0x100 + n % 0x100
            == n % 0x1_0000_0000
  {
    var a := n / 0x100;
    var b := a / 0x100;
    var c := b / 0x100;
    assert n / 0x10000 == b && n / 0x1000000 == c;
    assert n == a * 0x100 + n % 0x100;
    assert a == b * 0x100 + a % 0x100;
    assert b == c * 0x100 + b % 0x100;
    assert c == c / 0x100 * 0x100 + c % 0x100;
    assert n == c / 0x100 * 0x1_0000_0000 + (c % 0x100 * 0x1000000 + b % 0x100 * 0x10000 + a % 0x100 * 0x100 + n % 0x100);
  }

  /** No head that says the same is shorter. */
  lemma HeadIsShortest(b: Bytes)
    requires ReadHead(b).Some?
    ensures |Head(ReadHead(b).value.0, ReadHead(b).value.1)| <= |b| - |ReadHead(b).value.2|
  {
    if b[0] % 32 == 25 {
      NumberOfTwo(b[1..3]);
    }
  }

  // ---- decoding what was encoded -----------------------------------------------------------

  ghost predicate Decodes(v: Value) {
    forall rest :: Decode(Encode(v) + rest) == Some((Canon(v), rest))
  }

  /** One head, then what its major type says. */
  lemma DecodeHead(major: nat, n: nat, rest: Bytes)
    requires major < 8 && n < 0x1_0000_0000
    ensures Decode(Head(major, n) + rest) == DecodeBody(major, n, rest)
  {
    HeadReads(major, n, rest);
    DecodeAfter(Head(major, n), major, n, rest);
  }

  lemma DecodeAfter(h: Bytes, major: nat, n: nat, rest: Bytes)
    requires ReadHead(h + rest) == Some((major, n % 0x1_0000_0000, rest)) && n < 0x1_0000_0000
    ensures Decode(h + rest) == DecodeBody(major, n, rest)
  {
    DecodeOf(h + rest, major, n, rest);
  }

  lemma DecodeOf(b: Bytes, major: nat, n: nat, rest: Bytes)
    requires ReadHead(b) == Some((major, n, rest))
    ensures Decode(b) == DecodeBody(major, n, rest)
  {}

  lemma IntDecodes(n: int, rest: Bytes)
    requires -0x1_0000_0000 <= n < 0x1_0000_0000
    ensures Decode(EncodeInt(n) + rest) == Some((Int(n), rest))
  {
    DecodeHead(if n >= 0 then 0 else 1, if n >= 0 then n else -1 - n, rest);
  }

  lemma CutBack(h: Bytes, b: Bytes, rest: Bytes)
    ensures h + b + rest == h + (b + rest) && (b + rest)[..|b|] == b && (b + rest)[|b|..] == rest
  {}

  lemma StrDecodes(s: Bytes, rest: Bytes)
    requires |s| < 0x1_0000_0000
    ensures Decode(EncodeStr(s) + rest) == Some((Str(s), rest))
  {
    CutBack(Head(3, |s|), s, rest);
    DecodeHead(3, |s|, s + rest);
  }

  lemma BinDecodes(b: Bytes, rest: Bytes)
    requires |b| < 0x1_0000_0000
    ensures Decode(Head(2, |b|) + b + rest) == Some((Bin(b), rest))
  {
    CutBack(Head(2, |b|), b, rest);
    DecodeHead(2, |b|, b + rest);
  }

  lemma ScalarDecodes(v: Value)
    requires Fits(v) && !v.Array? && !v.Map?
    ensures Decodes(v)
  {
    forall rest ensures Decode(Encode(v) + rest) == Some((Canon(v), rest)) {
      match v
      case Int(n) => IntDecodes(n, rest);
      case Bin(b) => BinDecodes(b, rest);
      case Str(s) => StrDecodes(s, rest);
    }
  }

  function EncodeAll(vs: seq<Value>): seq<Bytes> { seq(|vs|, i requires 0 <= i < |vs| => Encode(vs[i])) }

  function CanonAll(vs: seq<Value>): seq<Value> { seq(|vs|, i requires 0 <= i < |vs| => Canon(vs[i])) }

  lemma NextItem(n: nat, b: Bytes, first: Value, b': Bytes)
    requires n > 0 && Decode(b) == Some((first, b')) && DecodeItems(n - 1, b').Some?
    ensures var others := DecodeItems(n - 1, b').value; DecodeItems(n, b) == Some(([first] + others.0, others.1))
  {}

  lemma JoinFirst(vs: seq<Value>, rest: Bytes)
    requires vs != []
    ensures Join(EncodeAll(vs)) + rest == Encode(vs[0]) + (Join(EncodeAll(vs[1..])) + rest)
    ensures CanonAll(vs) == [Canon(vs[0])] + CanonAll(vs[1..])
  {
    assert EncodeAll(vs)[1..] == EncodeAll(vs[1..]);
  }

  lemma {:induction false} ItemsDecode(vs: seq<Value>, rest: Bytes)
    requires forall i :: 0 <= i < |vs| ==> Decodes(vs[i])
    ensures DecodeItems(|vs|, Join(EncodeAll(vs)) + rest) == Some((CanonAll(vs), rest))
  {
    if vs == [] {
      assert Join(EncodeAll(vs)) + rest == rest;
      assert CanonAll(vs) == [];
    } else {
      ItemsDecode(vs[1..], rest);
      JoinFirst(vs, rest);
      ItemThen(vs[0], |vs|, Join(EncodeAll(vs[1..])) + rest);
    }
  }

  lemma ItemThen(v: Value, n: nat, after: Bytes)
    requires n > 0 && Decodes(v) && DecodeItems(n - 1, after).Some?
    ensures var others := DecodeItems(n - 1, after).value;
            DecodeItems(n, Encode(v) + after) == Some(([Canon(v)] + others.0, others.1))
  {
    NextItem(n, Encode(v) + after, Canon(v), after);
  }

  function EncodeEntry(e: Entry): Encoded { (EncodeKey(e.key), Encode(e.val)) }

  function EncodeEntries(es: seq<Entry>): seq<Encoded> { seq(|es|, i requires 0 <= i < |es| => EncodeEntry(es[i])) }

  function CanonEntries(es: seq<Entry>): seq<Entry> { seq(|es|, i requires 0 <= i < |es| => Entry(es[i].key, Canon(es[i].val))) }

  function KeyValue(k: Key): Value { match k case IntKey(n) => Int(n) case StrKey(s) => Str(s) }

  lemma KeyDecodes(k: Key, rest: Bytes)
    requires KeyFits(k)
    ensures Decode(EncodeKey(k) + rest) == Some((KeyValue(k), rest)) && AsKey(KeyValue(k)) == Some(k)
  {
    ScalarDecodes(KeyValue(k));
    assert Encode(KeyValue(k)) == EncodeKey(k) && Canon(KeyValue(k)) == KeyValue(k);
  }

  lemma NextEntry(n: nat, b: Bytes, key: Key, b': Bytes, val: Value, b'': Bytes)
    requires n > 0 && Decode(b) == Some((KeyValue(key), b')) && Decode(b') == Some((val, b'')) && DecodeEntries(n - 1, b'').Some?
    ensures var others := DecodeEntries(n - 1, b'').value; DecodeEntries(n, b) == Some(([Entry(key, val)] + others.0, others.1))
  {}

  lemma PairsFirst(es: seq<Entry>, rest: Bytes)
    requires es != []
    ensures Pairs(EncodeEntries(es)) + rest
            == EncodeKey(es[0].key) + (Encode(es[0].val) + (Pairs(EncodeEntries(es[1..])) + rest))
    ensures CanonEntries(es) == [Entry(es[0].key, Canon(es[0].val))] + CanonEntries(es[1..])
  {
    assert EncodeEntries(es)[1..] == EncodeEntries(es[1..]);
    Regroup(EncodeKey(es[0].key), Encode(es[0].val), Pairs(EncodeEntries(es[1..])), rest);
  }

  lemma {:induction false} EntriesDecode(es: seq<Entry>, rest: Bytes)
    requires forall i :: 0 <= i < |es| ==> KeyFits(es[i].key) && Decodes(es[i].val)
    ensures DecodeEntries(|es|, Pairs(EncodeEntries(es)) + rest) == Some((CanonEntries(es), rest))
  {
    if es == [] {
      assert Pairs(EncodeEntries(es)) + rest == rest;
      assert CanonEntries(es) == [];
    } else {
      EntriesDecode(es[1..], rest);
      PairsFirst(es, rest);
      EntryThen(es[0], |es|, Pairs(EncodeEntries(es[1..])) + rest);
    }
  }

  lemma EntryThen(e: Entry, n: nat, after: Bytes)
    requires n > 0 && KeyFits(e.key) && Decodes(e.val) && DecodeEntries(n - 1, after).Some?
    ensures var others := DecodeEntries(n - 1, after).value;
            DecodeEntries(n, EncodeKey(e.key) + (Encode(e.val) + after))
            == Some(([Entry(e.key, Canon(e.val))] + others.0, others.1))
  {
    KeyDecodes(e.key, Encode(e.val) + after);
    NextEntry(n, EncodeKey(e.key) + (Encode(e.val) + after), e.key, Encode(e.val) + after, Canon(e.val), after);
  }

  // ---- sorting entries or their encodings -----------------------------------------------------

  function EntryEncoder(): Entry -> Encoded { (e: Entry) => EncodeEntry(e) }

  function EntryCanon(): Entry -> Entry { (e: Entry) => Entry(e.key, Canon(e.val)) }

  lemma SortedEncoded(es: seq<Entry>)
    ensures EncodeEntries(Sort(es, ByEntryKey())) == Sort(EncodeEntries(es), ByKey())
  {
    var f := EntryEncoder();
    forall x, y ensures ByKey()(f(x), f(y)) == ByEntryKey()(x, y) {}
    SortMapped(es, f, ByEntryKey(), ByKey());
    assert EncodeEntries(es) == Seqs.Map(es, f);
    assert EncodeEntries(Sort(es, ByEntryKey())) == Seqs.Map(Sort(es, ByEntryKey()), f);
  }

  lemma SameKey()
    ensures KeepsOrder(EntryCanon(), ByEntryKey(), ByEntryKey())
  {
    var f := EntryCanon();
    forall x, y ensures ByEntryKey()(f(x), f(y)) == ByEntryKey()(x, y) {
      assert f(x).key == x.key && f(y).key == y.key;
    }
  }

  lemma SortedCanon(es: seq<Entry>)
    ensures CanonEntries(Sort(es, ByEntryKey())) == Sort(CanonEntries(es), ByEntryKey())
  {
    var f := EntryCanon();
    SameKey();
    SortMapped(es, f, ByEntryKey(), ByEntryKey());
    assert CanonEntries(es) == Seqs.Map(es, f);
    assert CanonEntries(Sort(es, ByEntryKey())) == Seqs.Map(Sort(es, ByEntryKey()), f);
  }

  lemma MapEncoded(es: seq<Entry>)
    ensures Encode(Map(es)) == Head(5, |es|) + Pairs(Sort(EncodeEntries(es), ByKey()))
  {
    assert EncodeEntries(es) == seq(|es|, i requires 0 <= i < |es| => (EncodeKey(es[i].key), Encode(es[i].val)));
  }

  lemma MapCanon(es: seq<Entry>)
    ensures Canon(Map(es)) == Map(Sort(CanonEntries(es), ByEntryKey()))
  {
    assert CanonEntries(es) == seq(|es|, i requires 0 <= i < |es| => Entry(es[i].key, Canon(es[i].val)));
  }

  lemma MapParts(es: seq<Entry>)
    ensures Encode(Map(es)) == Head(5, |es|) + Pairs(EncodeEntries(Sort(es, ByEntryKey())))
    ensures Canon(Map(es)) == Map(CanonEntries(Sort(es, ByEntryKey())))
    ensures |Sort(es, ByEntryKey())| == |es|
  {
    MapEncoded(es);
    MapCanon(es);
    SortedEncoded(es);
    SortedCanon(es);
    SameMembers(Sort(es, ByEntryKey()), es);
  }

  lemma ArrayParts(items: seq<Value>)
    ensures Encode(Array(items)) == Head(4, |items|) + Join(EncodeAll(items))
    ensures Canon(Array(items)) == Array(CanonAll(items))
  {
    assert EncodeAll(items) == seq(|items|, i requires 0 <= i < |items| => Encode(items[i]));
  }

  lemma ArrayDecodesWith(items: seq<Value>, rest: Bytes)
    requires |items| < 0x1_0000_0000 && forall i :: 0 <= i < |items| ==> Decodes(items[i])
    ensures Decode(Head(4, |items|) + Join(EncodeAll(items)) + rest) == Some((Array(CanonAll(items)), rest))
  {
    var body := Join(EncodeAll(items));
    CutBack(Head(4, |items|), body, rest);
    ItemsDecode(items, rest);
    DecodeHead(4, |items|, body + rest);
  }

  lemma ArrayDecodes(items: seq<Value>)
    requires |items| < 0x1_0000_0000 && forall i :: 0 <= i < |items| ==> Decodes(items[i])
    ensures Decodes(Array(items))
  {
    ArrayParts(items);
    forall rest ensures Decode(Encode(Array(items)) + rest) == Some((Canon(Array(items)), rest)) {
      ArrayDecodesWith(items, rest);
    }
  }

  lemma EntriesDecodeWith(es: seq<Entry>, rest: Bytes)
    requires |es| < 0x1_0000_0000 && forall i :: 0 <= i < |es| ==> KeyFits(es[i].key) && Decodes(es[i].val)
    ensures Decode(Head(5, |es|) + Pairs(EncodeEntries(es)) + rest) == Some((Map(CanonEntries(es)), rest))
  {
    var body := Pairs(EncodeEntries(es));
    CutBack(Head(5, |es|), body, rest);
    EntriesDecode(es, rest);
    DecodeHead(5, |es|, body + rest);
  }

  lemma MapDecodes(es: seq<Entry>)
    requires |es| < 0x1_0000_0000 && forall i :: 0 <= i < |es| ==> KeyFits(es[i].key) && Decodes(es[i].val)
    ensures Decodes(Map(es))
  {
    MapParts(es);
    var sorted := Sort(es, ByEntryKey());
    SameMembers(sorted, es);
    forall i | 0 <= i < |sorted| ensures KeyFits(sorted[i].key) && Decodes(sorted[i].val) {
      assert sorted[i] in es;
    }
    forall rest ensures Decode(Encode(Map(es)) + rest) == Some((Canon(Map(es)), rest)) {
      EntriesDecodeWith(sorted, rest);
    }
  }

  /** What was encoded is decoded, whatever follows: the same value, the
      entries of its maps in canonical order. */
  lemma {:induction false} RoundTrip(v: Value)
    requires Fits(v)
    ensures forall rest :: Decode(Encode(v) + rest) == Some((Canon(v), rest))
  {
    match v
    case Array(items) =>
      forall i | 0 <= i < |items| ensures Decodes(items[i]) { RoundTrip(items[i]); }
      ArrayDecodes(items);
    case Map(es) =>
      forall i | 0 <= i < |es| ensures KeyFits(es[i].key) && Decodes(es[i].val) { RoundTrip(es[i].val); }
      MapDecodes(es);
    case _ => ScalarDecodes(v);
  }

  // ---- exactly which values -----------------------------------------------------------------

  ghost predicate AllFit(items: seq<Value>) { forall i :: 0 <= i < |items| ==> Fits(items[i]) }

  ghost predicate EntriesFit(es: seq<Entry>) { forall i :: 0 <= i < |es| ==> KeyFits(es[i].key) && Fits(es[i].val) }

  /** Nothing but such values is ever decoded. */
  lemma {:induction false} DecodedFits(b: Bytes)
    ensures Decode(b).Some? ==> Fits(Decode(b).value.0)
    decreases |b|, 0
  {
    var h := ReadHead(b);
    if h.Some? {
      var (major, n, rest) := h.value;
      if major == 4 {
        DecodedItemsFit(n, rest);
      } else if major == 5 {
        DecodedEntriesFit(n, rest);
      }
    }
  }

  lemma {:induction false} DecodedItemsFit(n: nat, b: Bytes)
    ensures DecodeItems(n, b).Some? ==> AllFit(DecodeItems(n, b).value.0)
    decreases |b|, 1
  {
    if n > 0 {
      var first := Decode(b);
      DecodedFits(b);
      if first.Some? {
        DecodedItemsFit(n - 1, first.value.1);
      }
    }
  }

  lemma {:induction false} DecodedEntriesFit(n: nat, b: Bytes)
    ensures DecodeEntries(n, b).Some? ==> EntriesFit(DecodeEntries(n, b).value.0)
    decreases |b|, 1
  {
    if n > 0 {
      var key := Decode(b);
      DecodedFits(b);
      if key.Some? {
        var val := Decode(key.value.1);
        DecodedFits(key.value.1);
        if val.Some? {
          DecodedEntriesFit(n - 1, val.value.1);
        }
      }
    }
  }

  lemma {:induction false} CanonFits(v: Value)
    requires Fits(Canon(v))
    ensures Fits(v)
  {
    match v
    case Array(items) =>
      ArrayParts(items);
      forall i | 0 <= i < |items| ensures Fits(items[i]) {
        assert Fits(CanonAll(items)[i]);
        CanonFits(items[i]);
      }
    case Map(es) =>
      MapCanon(es);
      var sorted := Sort(CanonEntries(es), ByEntryKey());
      SameMembers(sorted, CanonEntries(es));
      forall i | 0 <= i < |es| ensures KeyFits(es[i].key) && Fits(es[i].val) {
        assert CanonEntries(es)[i] in sorted;
        var j :| 0 <= j < |sorted| && sorted[j] == CanonEntries(es)[i];
        CanonFits(es[i].val);
      }
    case _ =>
  }

  /** An encoding is read back as its value exactly when every argument is
      below 2^32: the others are cut without a word. */
  lemma RoundTripExactly(v: Value)
    ensures Decode(Encode(v)) == Some((Canon(v), [])) <==> Fits(v)
  {
    if Fits(v) {
      RoundTrip(v);
      assert Encode(v) + [] == Encode(v);
    } else if Decode(Encode(v)) == Some((Canon(v), [])) {
      DecodedFits(Encode(v));
      CanonFits(v);
      assert false;
    }
  }

  /** 2^32 is written as 0. */
  lemma TwoToThe32IsZero()
    ensures Encode(Int(0x1_0000_0000)) == [26, 0, 0, 0, 0]
    ensures Decode(Encode(Int(0x1_0000_0000))) == Some((Int(0), []))
  {
    assert Encode(Int(0x1_0000_0000)) == Head(0, 0x1_0000_0000);
    HeadReads(0, 0x1_0000_0000, []);
    assert Head(0, 0x1_0000_0000) + [] == Head(0, 0x1_0000_0000);
  }

  // ---- prefix-free and canonical --------------------------------------------------------------

  /** No encoding is a prefix of that of another value. */
  lemma PrefixFree(v: Value, w: Value, r: Bytes, s: Bytes)
    requires Fits(v) && Fits(w) && Encode(v) + r == Encode(w) + s
    ensures Canon(v) == Canon(w) && r == s
  {
    RoundTrip(v);
    RoundTrip(w);
    assert Decode(Encode(v) + r) == Some((Canon(v), r));
    assert Decode(Encode(w) + s) == Some((Canon(w), s));
  }

  lemma KeyOrder()
    ensures TotalOrder(ByKey()) && TotalOrder(ByEntryKey())
  {
    forall a: Bytes, b: Bytes ensures KeyAtMost(a, b) || KeyAtMost(b, a) {
      LexTotal(a, b, ByteValue());
    }
    forall a: Bytes, b: Bytes, c: Bytes | KeyAtMost(a, b) && KeyAtMost(b, c) ensures KeyAtMost(a, c) {
      if |a| == |b| == |c| {
        LexTransitive(a, b, c, ByteValue());
      }
    }
  }

  lemma SameEncodings(es: seq<Entry>)
    requires forall i :: 0 <= i < |es| ==> Encode(Canon(es[i].val)) == Encode(es[i].val)
    ensures EncodeEntries(CanonEntries(es)) == EncodeEntries(es)
  {}

  lemma MapOfCanon(es: seq<Entry>)
    requires forall i :: 0 <= i < |es| ==> Encode(Canon(es[i].val)) == Encode(es[i].val)
    ensures Encode(Canon(Map(es))) == Encode(Map(es))
  {
    var sorted := Sort(es, ByEntryKey());
    MapParts(es);
    SameMembers(sorted, es);
    forall i | 0 <= i < |sorted| ensures Encode(Canon(sorted[i].val)) == Encode(sorted[i].val) {
      assert sorted[i] in es;
    }
    SameEncodings(sorted);
    MapEncoded(CanonEntries(sorted));
    SortedEncoded(es);
    KeyOrder();
    SortSorted(EncodeEntries(es), ByKey());
    SortOfSorted(EncodeEntries(sorted), ByKey());
  }

  lemma ArrayOfCanon(items: seq<Value>)
    requires forall i :: 0 <= i < |items| ==> Encode(Canon(items[i])) == Encode(items[i])
    ensures Encode(Canon(Array(items))) == Encode(Array(items))
  {
    ArrayParts(items);
    ArrayParts(CanonAll(items));
    assert EncodeAll(CanonAll(items)) == EncodeAll(items);
  }

  lemma {:induction false} EncodeOfCanon(v: Value)
    ensures Encode(Canon(v)) == Encode(v)
  {
    match v
    case Array(items) =>
      forall i | 0 <= i < |items| ensures Encode(Canon(items[i])) == Encode(items[i]) { EncodeOfCanon(items[i]); }
      ArrayOfCanon(items);
    case Map(es) =>
      forall i | 0 <= i < |es| ensures Encode(Canon(es[i].val)) == Encode(es[i].val) { EncodeOfCanon(es[i].val); }
      MapOfCanon(es);
    case _ =>
  }

  /** Two values have the same encoding exactly when they differ at most by
      the order of entries. */
  lemma SameEncodingSameValue(v: Value, w: Value)
    requires Fits(v) && Fits(w)
    ensures Encode(v) == Encode(w) <==> Canon(v) == Canon(w)
  {
    EncodeOfCanon(v);
    EncodeOfCanon(w);
    if Encode(v) == Encode(w) {
      PrefixFree(v, w, [], []);
    }
  }

  /** No key twice: a JavaScript map or object. */
  ghost predicate DistinctKeys(es: seq<Entry>) {
    forall i, j :: 0 <= i < j < |es| ==> es[i].key != es[j].key
  }

  lemma KeysApart(k: Key, l: Key)
    requires KeyFits(k) && KeyFits(l) && EncodeKey(k) == EncodeKey(l)
    ensures k == l
  {
    KeyDecodes(k, []);
    KeyDecodes(l, []);
  }

  /** An entry as it is written. */
  function Written(e: Encoded): Bytes { e.0 + e.1 }

  /** Either may be written first. */
  predicate EitherOrder(x: Encoded, y: Encoded) { Written(x) + Written(y) == Written(y) + Written(x) }

  /** Entries whose keys are written alike may be written in either order. */
  ghost predicate Commute(all: seq<Encoded>) {
    forall x, y :: x in all && y in all && x.0 == y.0 ==> EitherOrder(x, y)
  }

  /** The order in which the entries of a map were put does not show. */
  ghost predicate OrderHidden(es: seq<Entry>) {
    forall es' :: multiset(es') == multiset(es) ==> Encode(Map(es')) == Encode(Map(es))
  }

  lemma KeysAntisymmetric(x: Encoded, y: Encoded)
    requires ByKey()(x, y) && ByKey()(y, x)
    ensures x.0 == y.0
  {
    LexAntisymmetric(x.0, y.0, ByteValue());
  }

  lemma {:induction false} PairsConcat(a: seq<Encoded>, b: seq<Encoded>)
    ensures Pairs(a + b) == Pairs(a) + Pairs(b)
  {
    if a == [] {
      assert a + b == b;
    } else {
      assert (a + b)[1..] == a[1..] + b;
      PairsConcat(a[1..], b);
      Regroup(Written(a[0]), Pairs(a[1..]), Pairs(b), []);
    }
  }

  /** What commutes with each entry commutes with all of them. */
  lemma {:induction false} PairsCommute(x: Encoded, s: seq<Encoded>)
    requires forall y :: y in s ==> EitherOrder(x, y)
    ensures Pairs(s) + Written(x) == Written(x) + Pairs(s)
  {
    if s == [] {
      assert [] + Written(x) == Written(x) + [];
    } else {
      var w, y, rest := Written(x), Written(s[0]), Pairs(s[1..]);
      PairsCommute(x, s[1..]);
      assert EitherOrder(x, s[0]);
      Regroup(y, rest, w, []);
      Regroup(y, w, rest, []);
      Regroup(w, y, rest, []);
    }
  }

  lemma WrittenOnce(x: Encoded, s: seq<Encoded>)
    ensures Pairs([x] + s) == Written(x) + Pairs(s)
  {
    assert ([x] + s)[1..] == s;
  }

  lemma WrittenBefore(a: seq<Encoded>, x: Encoded, b: seq<Encoded>)
    requires forall y :: y in a ==> EitherOrder(x, y)
    ensures Pairs(a + ([x] + b)) == Written(x) + Pairs(a + b)
  {
    PairsConcat(a, [x] + b);
    WrittenOnce(x, b);
    PairsConcat(a, b);
    PairsCommute(x, a);
    Regroup(Pairs(a), Written(x), Pairs(b), []);
    Regroup(Written(x), Pairs(a), Pairs(b), []);
  }

  lemma ThreeParts(s: seq<Encoded>, j: nat)
    requires j < |s|
    ensures s == s[..j] + ([s[j]] + s[j + 1..])
  {}

  /** One entry of a list written first, when it and those before it may be
      written in either order. */
  lemma WrittenFirst(s: seq<Encoded>, j: nat)
    requires j < |s| && forall y :: y in s[..j] ==> EitherOrder(s[j], y)
    ensures Pairs(s) == Written(s[j]) + Pairs(s[..j] + s[j + 1..])
  {
    ThreeParts(s, j);
    WrittenBefore(s[..j], s[j], s[j + 1..]);
  }

  lemma WithoutOne(a: seq<Encoded>, j: nat, r: (Encoded, Encoded) -> bool)
    requires Pairwise(a, r) && j < |a|
    ensures Pairwise(a[..j] + a[j + 1..], r)
    ensures multiset(a[..j] + a[j + 1..]) == multiset(a) - multiset{a[j]}
    ensures forall x :: x in a[..j] + a[j + 1..] ==> x in a
  {
    var t := a[..j] + a[j + 1..];
    assert a == a[..j] + [a[j]] + a[j + 1..];
    forall k, l | 0 <= k < l < |t| ensures r(t[k], t[l]) {
      assert t[k] == a[if k < j then k else k + 1] && t[l] == a[if l < j then l else l + 1];
    }
  }

  /** What comes before the first of `a` in `b` has its key. */
  lemma BeforeFirst(a: seq<Encoded>, b: seq<Encoded>, j: nat, y: Encoded)
    requires multiset(a) == multiset(b) && Pairwise(a, ByKey()) && Pairwise(b, ByKey()) && Commute(a)
    requires a != [] && j < |b| && b[j] == a[0] && y in b[..j]
    ensures EitherOrder(a[0], y)
  {
    SameMembers(a, b);
    var k :| 0 <= k < j && b[..j][k] == y;
    assert y in a;
    var l :| 0 <= l < |a| && a[l] == y;
    KeyOrder();
    assert ByKey()(b[k], b[j]) && (l > 0 ==> ByKey()(a[0], a[l]));
    KeysAntisymmetric(a[0], y);
    assert a[0] in a;
  }

  /** Two sorted lists of the same entries are written alike. */
  lemma {:induction false} SortedWriteAlike(a: seq<Encoded>, b: seq<Encoded>)
    requires multiset(a) == multiset(b) && Pairwise(a, ByKey()) && Pairwise(b, ByKey()) && Commute(a)
    ensures Pairs(a) == Pairs(b)
  {
    SameMembers(a, b);
    if a != [] {
      assert a[0] in b;
      var j :| 0 <= j < |b| && b[j] == a[0];
      forall y | y in b[..j] ensures EitherOrder(b[j], y) {
        BeforeFirst(a, b, j, y);
      }
      WrittenFirst(a, 0);
      WrittenFirst(b, j);
      WithoutOne(a, 0, ByKey());
      WithoutOne(b, j, ByKey());
      SortedWriteAlike(a[..0] + a[0 + 1..], b[..j] + b[j + 1..]);
    }
  }

  lemma EncodedAlike(es: seq<Entry>, es': seq<Entry>)
    requires multiset(es) == multiset(es')
    ensures multiset(EncodeEntries(es)) == multiset(EncodeEntries(es')) && |es| == |es'|
  {
    SameMembers(es, es');
    MapMultiset(es, es', EntryEncoder());
    assert EncodeEntries(es) == Seqs.Map(es, EntryEncoder());
    assert EncodeEntries(es') == Seqs.Map(es', EntryEncoder());
  }

  lemma CommuteHides(es: seq<Entry>, es': seq<Entry>)
    requires Commute(EncodeEntries(es)) && multiset(es') == multiset(es)
    ensures Encode(Map(es')) == Encode(Map(es))
  {
    var all, all' := EncodeEntries(es), EncodeEntries(es');
    MapEncoded(es);
    MapEncoded(es');
    EncodedAlike(es, es');
    KeyOrder();
    SortSorted(all, ByKey());
    SortSorted(all', ByKey());
    SameMembers(Sort(all, ByKey()), all);
    SortedWriteAlike(Sort(all, ByKey()), Sort(all', ByKey()));
  }

  lemma CancelBoth(p: Bytes, a: Bytes, b: Bytes, q: Bytes)
    requires p + (a + q) == p + (b + q) && |a| == |b|
    ensures a == b
  {
    assert (p + (a + q))[|p|..] == a + q && (p + (b + q))[|p|..] == b + q;
    assert (a + q)[..|a|] == a && (b + q)[..|b|] == b;
  }

  /** `x` then `y`, in a sorted list. */
  function InsertBoth(x: Encoded, y: Encoded, s: seq<Encoded>): seq<Encoded> { Insert(x, Insert(y, s, ByKey()), ByKey()) }

  /** Two entries of the same key inserted in a sorted list stand side by side,
      the last inserted first. */
  lemma {:induction false} InsertedSideBySide(x: Encoded, y: Encoded, s: seq<Encoded>)
    requires x.0 == y.0 && Pairs(InsertBoth(x, y, s)) == Pairs(InsertBoth(y, x, s))
    ensures EitherOrder(x, y)
  {
    if s == [] || ByKey()(y, s[0]) {
      WrittenTwice(x, y, s);
      WrittenTwice(y, x, s);
      CancelBoth([], Written(x) + Written(y), Written(y) + Written(x), Pairs(s));
    } else {
      InsertAfter(x, y, s);
      InsertAfter(y, x, s);
      WrittenOnce(s[0], InsertBoth(x, y, s[1..]));
      WrittenOnce(s[0], InsertBoth(y, x, s[1..]));
      CancelFirst(Written(s[0]), Pairs(InsertBoth(x, y, s[1..])), Pairs(InsertBoth(y, x, s[1..])));
      InsertedSideBySide(x, y, s[1..]);
    }
  }

  lemma CancelFirst(p: Bytes, a: Bytes, b: Bytes)
    requires p + a == p + b
    ensures a == b
  {
    assert (p + a)[|p|..] == a && (p + b)[|p|..] == b;
  }

  lemma InsertAfter(x: Encoded, y: Encoded, s: seq<Encoded>)
    requires x.0 == y.0 && s != [] && !ByKey()(y, s[0])
    ensures InsertBoth(x, y, s) == [s[0]] + InsertBoth(x, y, s[1..])
  {
    var t := Insert(y, s[1..], ByKey());
    assert Insert(y, s, ByKey()) == [s[0]] + t;
    assert ([s[0]] + t)[1..] == t;
  }

  lemma WrittenTwice(x: Encoded, y: Encoded, s: seq<Encoded>)
    requires x.0 == y.0 && (s == [] || ByKey()(y, s[0]))
    ensures Pairs(InsertBoth(x, y, s)) == [] + (Written(x) + Written(y) + Pairs(s))
  {
    KeyOrder();
    InsertedFirst(y, s);
    InsertedFirst(x, [y] + s);
    WrittenOnce(y, s);
    WrittenOnce(x, [y] + s);
    Regroup(Written(x), Written(y), Pairs(s), []);
  }

  lemma InsertedFirst(x: Encoded, s: seq<Encoded>)
    requires s == [] || ByKey()(x, s[0])
    ensures Insert(x, s, ByKey()) == [x] + s
  {}

  lemma TwoFirst(es: seq<Entry>, i: nat, j: nat)
    requires i < j < |es|
    ensures var rest := es[..i] + es[i + 1..j] + es[j + 1..];
            multiset([es[i], es[j]] + rest) == multiset(es) && multiset([es[j], es[i]] + rest) == multiset(es)
  {
    assert es == es[..i] + [es[i]] + es[i + 1..j] + [es[j]] + es[j + 1..];
  }

  lemma SortOfTwoFirst(e: Entry, f: Entry, rest: seq<Entry>)
    ensures Sort(EncodeEntries([e, f] + rest), ByKey())
            == InsertBoth(EncodeEntry(e), EncodeEntry(f), Sort(EncodeEntries(rest), ByKey()))
  {
    var all := EncodeEntries([e, f] + rest);
    assert all[1..] == [EncodeEntry(f)] + EncodeEntries(rest);
    assert all[1..][1..] == EncodeEntries(rest);
  }

  lemma SameBody(es: seq<Entry>, es': seq<Entry>)
    requires |es| == |es'| && Encode(Map(es)) == Encode(Map(es'))
    ensures Pairs(Sort(EncodeEntries(es), ByKey())) == Pairs(Sort(EncodeEntries(es'), ByKey()))
  {
    MapEncoded(es);
    MapEncoded(es');
    var h := Head(5, |es|);
    var p, q := Pairs(Sort(EncodeEntries(es), ByKey())), Pairs(Sort(EncodeEntries(es'), ByKey()));
    assert (h + p)[|h|..] == p && (h + q)[|h|..] == q;
  }

  lemma HiddenCommutes(es: seq<Entry>, i: nat, j: nat)
    requires OrderHidden(es) && i < j < |es| && EncodeKey(es[i].key) == EncodeKey(es[j].key)
    ensures EitherOrder(EncodeEntry(es[i]), EncodeEntry(es[j]))
  {
    var rest := es[..i] + es[i + 1..j] + es[j + 1..];
    TwoFirst(es, i, j);
    BothFirst(es, es[i], es[j], rest);
  }

  lemma HiddenBody(es: seq<Entry>, a: seq<Entry>, b: seq<Entry>)
    requires OrderHidden(es) && multiset(a) == multiset(es) && multiset(b) == multiset(es)
    ensures Pairs(Sort(EncodeEntries(a), ByKey())) == Pairs(Sort(EncodeEntries(b), ByKey()))
  {
    SameMembers(a, b);
    assert Encode(Map(a)) == Encode(Map(es)) == Encode(Map(b));
    SameBody(a, b);
  }

  lemma BothFirst(es: seq<Entry>, e: Entry, f: Entry, rest: seq<Entry>)
    requires OrderHidden(es) && EncodeKey(e.key) == EncodeKey(f.key)
    requires multiset([e, f] + rest) == multiset(es) && multiset([f, e] + rest) == multiset(es)
    ensures EitherOrder(EncodeEntry(e), EncodeEntry(f))
  {
    HiddenBody(es, [e, f] + rest, [f, e] + rest);
    SortOfTwoFirst(e, f, rest);
    SortOfTwoFirst(f, e, rest);
    InsertedSideBySide(EncodeEntry(e), EncodeEntry(f), Sort(EncodeEntries(rest), ByKey()));
  }

  lemma HiddenPair(es: seq<Entry>, i: nat, j: nat)
    requires OrderHidden(es) && i < |es| && j < |es| && EncodeKey(es[i].key) == EncodeKey(es[j].key)
    ensures EitherOrder(EncodeEntry(es[i]), EncodeEntry(es[j]))
  {
    if i < j {
      HiddenCommutes(es, i, j);
    } else if j < i {
      HiddenCommutes(es, j, i);
    }
  }

  lemma HiddenEntries(es: seq<Entry>, x: Encoded, y: Encoded)
    requires OrderHidden(es) && x in EncodeEntries(es) && y in EncodeEntries(es) && x.0 == y.0
    ensures EitherOrder(x, y)
  {
    var i :| 0 <= i < |es| && EncodeEntries(es)[i] == x;
    var j :| 0 <= j < |es| && EncodeEntries(es)[j] == y;
    HiddenPair(es, i, j);
  }

  lemma HiddenCommute(es: seq<Entry>)
    requires OrderHidden(es)
    ensures Commute(EncodeEntries(es))
  {
    forall x, y | x in EncodeEntries(es) && y in EncodeEntries(es) && x.0 == y.0 ensures EitherOrder(x, y) {
      HiddenEntries(es, x, y);
    }
  }

  /** The order in which the entries of a map were put does not show, exactly
      when entries whose keys are written alike may be written in either order. */
  lemma InsertionOrderDoesNotShow(es: seq<Entry>)
    ensures OrderHidden(es) <==> Commute(EncodeEntries(es))
  {
    if OrderHidden(es) {
      HiddenCommute(es);
    }
    if Commute(EncodeEntries(es)) {
      forall es' | multiset(es') == multiset(es) ensures Encode(Map(es')) == Encode(Map(es)) {
        CommuteHides(es, es');
      }
    }
  }

  /** Two entries with the same key bytes have the same value bytes. */
  ghost predicate Unambiguous(es: seq<Entry>) {
    forall i, j :: 0 <= i < j < |es| && EncodeKey(es[i].key) == EncodeKey(es[j].key) ==> Encode(es[i].val) == Encode(es[j].val)
  }

  lemma FittingCommute(k: Bytes, v: Value, w: Value)
    requires Fits(v) && Fits(w) && EitherOrder((k, Encode(v)), (k, Encode(w)))
    ensures Encode(v) == Encode(w)
  {
    var a, b := Encode(v), Encode(w);
    Regroup(k, a, k + b, []);
    Regroup(k, b, k + a, []);
    assert (k + (a + (k + b)))[|k|..] == a + (k + b) && (k + (b + (k + a)))[|k|..] == b + (k + a);
    PrefixFree(v, w, k + b, k + a);
    SameEncodingSameValue(v, w);
  }

  /** When the values are below 2^32, keys of any size: exactly when no two
      entries have the same key bytes and different value bytes. */
  lemma OrderHiddenExactly(es: seq<Entry>)
    requires forall i :: 0 <= i < |es| ==> Fits(es[i].val)
    ensures OrderHidden(es) <==> Unambiguous(es)
  {
    var all := EncodeEntries(es);
    InsertionOrderDoesNotShow(es);
    if Commute(all) {
      forall i, j | 0 <= i < j < |es| && EncodeKey(es[i].key) == EncodeKey(es[j].key)
        ensures Encode(es[i].val) == Encode(es[j].val)
      {
        assert all[i] in all && all[j] in all;
        FittingCommute(EncodeKey(es[i].key), es[i].val, es[j].val);
      }
    }
    if Unambiguous(es) {
      UnambiguousCommute(es);
    }
  }

  lemma UnambiguousCommute(es: seq<Entry>)
    requires Unambiguous(es)
    ensures Commute(EncodeEntries(es))
  {
    var all := EncodeEntries(es);
    forall x, y | x in all && y in all && x.0 == y.0 ensures x == y {
      var i :| 0 <= i < |all| && all[i] == x;
      var j :| 0 <= j < |all| && all[j] == y;
    }
  }

  /** So any map or object whose keys are below 2^32. */
  lemma DistinctKeysHideTheOrder(es: seq<Entry>)
    requires DistinctKeys(es) && forall i :: 0 <= i < |es| ==> KeyFits(es[i].key)
    ensures OrderHidden(es)
  {
    forall i, j | 0 <= i < j < |es| ensures EncodeKey(es[i].key) != EncodeKey(es[j].key) {
      if EncodeKey(es[i].key) == EncodeKey(es[j].key) { KeysApart(es[i].key, es[j].key); }
    }
    UnambiguousCommute(es);
    InsertionOrderDoesNotShow(es);
  }

  function KeyOf(): Encoded -> Bytes { (e: Encoded) => e.0 }

  /** `a` comes first, byte by byte, at the place where they part. */
  ghost predicate PartsLower(a: Bytes, b: Bytes, k: nat) {
    k < |a| && k < |b| && (forall i :: 0 <= i < k ==> a[i] == b[i]) && a[k] < b[k]
  }

  lemma {:induction false} LexInFull(a: Bytes, b: Bytes)
    requires |a| == |b|
    ensures LexAtMost(a, b, ByteValue()) <==> a == b || exists k: nat :: PartsLower(a, b, k)
  {
    if a != [] {
      LexInFull(a[1..], b[1..]);
      assert a == [a[0]] + a[1..] && b == [b[0]] + b[1..];
      PartsLowerNext(a, b, 0);
      if k: nat :| PartsLower(a, b, k) {
        PartsLowerNext(a, b, k);
        assert k > 0 ==> PartsLower(a[1..], b[1..], k - 1);
      }
      if k: nat :| PartsLower(a[1..], b[1..], k) {
        PartsLowerNext(a, b, k + 1);
        assert a[0] == b[0] ==> PartsLower(a, b, k + 1);
      }
    }
  }

  lemma PartsLowerNext(a: Bytes, b: Bytes, k: nat)
    requires a != [] && b != []
    ensures PartsLower(a, b, k) <==> if k == 0 then a[0] < b[0] else a[0] == b[0] && PartsLower(a[1..], b[1..], k - 1)
  {
    if 0 < k < |a| && k < |b| {
      assert a[1..][k - 1] == a[k] && b[1..][k - 1] == b[k];
      if PartsLower(a, b, k) {
        forall i | 0 <= i < k - 1 ensures a[1..][i] == b[1..][i] {
          assert a[i + 1] == b[i + 1];
        }
      }
      if a[0] == b[0] && PartsLower(a[1..], b[1..], k - 1) {
        forall i | 0 <= i < k ensures a[i] == b[i] {
          assert i > 0 ==> a[1..][i - 1] == b[1..][i - 1];
        }
      }
    }
  }

  /** The shorter first, and of one length the lower at the first byte that
      differs. */
  ghost predicate NoLater(a: Bytes, b: Bytes) {
    |a| < |b| || (|a| == |b| && (a == b || exists k: nat :: PartsLower(a, b, k)))
  }

  lemma KeyOrderInFull(a: Bytes, b: Bytes)
    ensures KeyAtMost(a, b) <==> NoLater(a, b)
  {
    if |a| == |b| {
      LexInFull(a, b);
    }
  }

  /** In an encoding the keys ascend, shorter first (section 4.2.3 of RFC 8949),
      strictly exactly when no two keys are written alike. */
  lemma KeysAscend(es: seq<Entry>)
    ensures var sorted := Sort(EncodeEntries(es), ByKey());
            && Encode(Map(es)) == Head(5, |sorted|) + Pairs(sorted)
            && (forall i, j :: 0 <= i < j < |sorted| ==> NoLater(sorted[i].0, sorted[j].0))
            && ((forall i, j :: 0 <= i < j < |sorted| ==> sorted[i].0 != sorted[j].0)
                <==> forall i, j :: 0 <= i < j < |es| ==> EncodeKey(es[i].key) != EncodeKey(es[j].key))
  {
    var all := EncodeEntries(es);
    var sorted := Sort(all, ByKey());
    MapEncoded(es);
    KeyOrder();
    SortSorted(all, ByKey());
    SameMembers(sorted, all);
    forall i, j | 0 <= i < j < |sorted| ensures NoLater(sorted[i].0, sorted[j].0) {
      assert ByKey()(sorted[i], sorted[j]);
      KeyOrderInFull(sorted[i].0, sorted[j].0);
    }
    KeysDiffer(es);
    if DistinctBy(all, KeyOf()) {
      DistinctPermuted(all, sorted, KeyOf());
    }
    if DistinctBy(sorted, KeyOf()) {
      DistinctPermuted(sorted, all, KeyOf());
    }
    assert DistinctBy(sorted, KeyOf()) <==> forall i, j :: 0 <= i < j < |sorted| ==> sorted[i].0 != sorted[j].0 by {
      KeysDifferBy(sorted);
    }
  }

  lemma KeysDifferBy(all: seq<Encoded>)
    ensures DistinctBy(all, KeyOf()) <==> forall i, j :: 0 <= i < j < |all| ==> all[i].0 != all[j].0
  {
    if DistinctBy(all, KeyOf()) {
      forall i, j | 0 <= i < j < |all| ensures all[i].0 != all[j].0 {
        assert KeyOf()(all[i]) != KeyOf()(all[j]);
      }
    }
  }

  lemma KeysDiffer(es: seq<Entry>)
    ensures DistinctBy(EncodeEntries(es), KeyOf())
            <==> forall i, j :: 0 <= i < j < |es| ==> EncodeKey(es[i].key) != EncodeKey(es[j].key)
  {
    var all := EncodeEntries(es);
    KeysDifferBy(all);
    if forall i, j :: 0 <= i < j < |all| ==> all[i].0 != all[j].0 {
      forall i, j | 0 <= i < j < |es| ensures EncodeKey(es[i].key) != EncodeKey(es[j].key) {
        assert all[i].0 != all[j].0;
      }
    }
  }

  /** Keys cut to the same bytes keep the order they were put in. */
  lemma WideKeysShowTheirOrder()
    ensures var a, b := Entry(IntKey(0x10000), Int(1)), Entry(IntKey(0x1_0001_0000), Int(2));
            Encode(Map([a, b])) != Encode(Map([b, a]))
  {
    var a, b := Entry(IntKey(0x10000), Int(1)), Entry(IntKey(0x1_0001_0000), Int(2));
    var key: Bytes := [26, 0, 1, 0, 0];
    assert EncodeKey(a.key) == key && EncodeKey(b.key) == key;
    LexTotal(key, key, ByteValue());
    TwoEntries(a, b);
    TwoEntries(b, a);
    assert Encode(Map([a, b]))[6] == 1 && Encode(Map([b, a]))[6] == 2;
  }

  lemma TwoEntries(a: Entry, b: Entry)
    requires KeyAtMost(EncodeKey(a.key), EncodeKey(b.key))
    ensures Encode(Map([a, b])) == Head(5, 2) + (EncodeKey(a.key) + Encode(a.val) + (EncodeKey(b.key) + Encode(b.val)))
  {
    MapEncoded([a, b]);
    var all := EncodeEntries([a, b]);
    assert all == [EncodeEntry(a), EncodeEntry(b)];
    forall i, j | 0 <= i < j < |all| ensures ByKey()(all[i], all[j]) {}
    SortOfSorted(all, ByKey());
    assert all[1..] == [EncodeEntry(b)] && |all[1..]| == 1;
    assert Pairs(all[1..]) == EncodeKey(b.key) + Encode(b.val);
  }

  // ---- the encoder ------------------------------------------------------------------------

  datatype Keyed = Keyed(bytes: Bytes, val: Value)

  function ByKeyed(): (Keyed, Keyed) -> bool { (x: Keyed, y: Keyed) => KeyAtMost(x.bytes, y.bytes) }

  ghost function KeyedEncoder(): Keyed -> Encoded { (k: Keyed) => (k.bytes, Encode(k.val)) }

  ghost function EncodeKeyed(ks: seq<Keyed>): seq<Encoded> { Seqs.Map(ks, KeyedEncoder()) }

  lemma SortedKeyed(ks: seq<Keyed>, es: seq<Entry>)
    requires |ks| == |es| && forall i :: 0 <= i < |es| ==> ks[i] == Keyed(EncodeKey(es[i].key), es[i].val)
    ensures EncodeKeyed(Sort(ks, ByKeyed())) == Sort(EncodeEntries(es), ByKey())
  {
    var f := KeyedEncoder();
    forall x, y ensures ByKey()(f(x), f(y)) == ByKeyed()(x, y) {
      assert f(x).0 == x.bytes && f(y).0 == y.bytes;
    }
    SortMapped(ks, f, ByKeyed(), ByKey());
    assert Seqs.Map(ks, f) == EncodeEntries(es);
  }

  lemma {:induction false} PairsOfOneMore(entries: seq<Encoded>, e: Encoded)
    ensures Pairs(entries + [e]) == Pairs(entries) + e.0 + e.1
  {
    if entries == [] {
      assert Pairs([e]) == e.0 + e.1 + Pairs([e][1..]);
    } else {
      assert (entries + [e])[1..] == entries[1..] + [e];
      PairsOfOneMore(entries[1..], e);
      assert (entries + [e])[0] == entries[0];
    }
  }

  lemma {:induction false} JoinOfOneMore(parts: seq<Bytes>, part: Bytes)
    ensures Join(parts + [part]) == Join(parts) + part
  {
    if parts == [] {
      assert Join([part]) == part + Join([part][1..]);
    } else {
      assert (parts + [part])[1..] == parts[1..] + [part];
      JoinOfOneMore(parts[1..], part);
    }
  }

  lemma EncodeKeyedNext(ks: seq<Keyed>, k: nat)
    requires k < |ks|
    ensures Pairs(EncodeKeyed(ks[..k + 1])) == Pairs(EncodeKeyed(ks[..k])) + ks[k].bytes + Encode(ks[k].val)
  {
    assert EncodeKeyed(ks[..k + 1]) == EncodeKeyed(ks[..k]) + [(ks[k].bytes, Encode(ks[k].val))];
    PairsOfOneMore(EncodeKeyed(ks[..k]), (ks[k].bytes, Encode(ks[k].val)));
  }

  lemma EncodeAllNext(items: seq<Value>, k: nat)
    requires k < |items|
    ensures Join(EncodeAll(items[..k + 1])) == Join(EncodeAll(items[..k])) + Encode(items[k])
  {
    assert EncodeAll(items[..k + 1]) == EncodeAll(items[..k]) + [Encode(items[k])];
    JoinOfOneMore(EncodeAll(items[..k]), Encode(items[k]));
  }

  lemma Associative(a: Bytes, b: Bytes, c: Bytes, d: Bytes)
    ensures a + b + c == a + (b + c) && a + b + c + d == a + (b + c + d)
  {}

  class Encoder {
    var out: Bytes

    constructor ()
      ensures out == []
    {
      out := [];
    }

    method Push(bytes: Bytes)
      modifies this
      ensures out == old(out) + bytes
    {
      for i := 0 to |bytes|
        invariant out == old(out) + bytes[..i]
      {
        out := out + [bytes[i]];
      }
    }

    method EncScalar(x: Value)
      requires !x.Array? && !x.Map?
      modifies this
      ensures out == old(out) + Encode(x)
    {
      match x
      case Int(n) =>
        Push(if n >= 0 then Head(0, n) else Head(1, -1 - n));
      case Str(s) =>
        Push(Head(3, |s|));
        Push(s);
      case Bin(b) =>
        Push(Head(2, |b|));
        Push(b);
    }

    /** The entries of a map, each with its encoded key. */
    static method KeyEntries(es: seq<Entry>) returns (keyed: seq<Keyed>)
      ensures |keyed| == |es| && forall i :: 0 <= i < |es| ==> keyed[i] == Keyed(EncodeKey(es[i].key), es[i].val)
    {
      keyed := [];
      for i := 0 to |es|
        invariant |keyed| == i && forall j :: 0 <= j < i ==> keyed[j] == Keyed(EncodeKey(es[j].key), es[j].val)
      {
        var e := new Encoder();
        e.EncScalar(KeyValue(es[i].key));
        assert Encode(KeyValue(es[i].key)) == EncodeKey(es[i].key);
        keyed := keyed + [Keyed(e.out, es[i].val)];
      }
    }

    method EncItems(items: seq<Value>)
      modifies this
      ensures out == old(out) + Join(EncodeAll(items))
      decreases Array(items), 0
    {
      ghost var done: Bytes := [];
      for i := 0 to |items|
        invariant out == old(out) + done && done == Join(EncodeAll(items[..i]))
      {
        EncodeAllNext(items, i);
        Enc(items[i]);
        Associative(old(out), done, Encode(items[i]), []);
        done := done + Encode(items[i]);
      }
      assert items[..|items|] == items;
    }

    method EncKeyed(keyed: seq<Keyed>, ghost es: seq<Entry>)
      requires forall k :: k in keyed ==> exists i :: 0 <= i < |es| && es[i].val == k.val
      modifies this
      ensures out == old(out) + Pairs(EncodeKeyed(keyed))
      decreases Map(es), 0
    {
      ghost var done: Bytes := [];
      for i := 0 to |keyed|
        invariant out == old(out) + done && done == Pairs(EncodeKeyed(keyed[..i]))
      {
        EncodeKeyedNext(keyed, i);
        Push(keyed[i].bytes);
        assert keyed[i] in keyed;
        Enc(keyed[i].val);
        Associative(old(out), done, keyed[i].bytes, Encode(keyed[i].val));
        done := done + keyed[i].bytes + Encode(keyed[i].val);
      }
      assert keyed[..|keyed|] == keyed;
    }

    method Enc(x: Value)
      modifies this
      ensures out == old(out) + Encode(x)
      decreases x, 1
    {
      match x
      case Array(items) =>
        ArrayParts(items);
        Push(Head(4, |items|));
        EncItems(items);
        Associative(old(out), Head(4, |items|), Join(EncodeAll(items)), []);
      case Map(es) =>
        MapEncoded(es);
        var keyed := KeyEntries(es);
        var sorted := Sort(keyed, ByKeyed());
        SameMembers(sorted, keyed);
        SortedKeyed(keyed, es);
        Push(Head(5, |sorted|));
        EncKeyed(sorted, es);
        Associative(old(out), Head(5, |es|), Pairs(EncodeKeyed(sorted)), []);
      case _ => EncScalar(x);
    }
  }

  method CborEncode(v: Value) returns (b: Bytes)
    ensures b == Encode(v)
  {
    var e := new Encoder();
    e.Enc(v);
    assert [] + Encode(v) == Encode(v);
    return e.out;
  }
}
