/** UTF-8: writing it, reading it, and cutting a text between two characters. */
module Utf8 {
  import opened Text
  import opened Wrappers

  type Bytes = seq<byte>
  type Scalar = c: nat | c < 0xD800 || 0xE000 <= c < 0x11_0000

  predicate Continuation(b: byte) { 0x80 <= b < 0xC0 }

  function OfChar(c: Scalar): (b: Bytes)
    ensures 1 <= |b| <= 4 && !Continuation(b[0])
    ensures forall i :: 0 < i < |b| ==> Continuation(b[i])
  {
    if c < 0x80 then [c]
    else if c < 0x800 then [0xC0 + c / 0x40, 0x80 + c % 0x40]
    else if c < 0x1_0000 then [0xE0 + c / 0x1000, 0x80 + c / 0x40 % 0x40, 0x80 + c % 0x40]
    else [0xF0 + c / 0x4_0000, 0x80 + c / 0x1000 % 0x40, 0x80 + c / 0x40 % 0x40, 0x80 + c % 0x40]
  }

  function Of(cs: seq<Scalar>): Bytes {
    if cs == [] then [] else OfChar(cs[0]) + Of(cs[1..])
  }

  /** No character is cut there. */
  predicate Boundary(b: Bytes, i: nat) {
    i == 0 || i == |b| || (i < |b| && !Continuation(b[i]))
  }

  /** A boundary is between two characters. */
  lemma {:induction false} CutAtBoundary(cs: seq<Scalar>, i: nat) returns (k: nat)
    requires i <= |Of(cs)| && Boundary(Of(cs), i)
    ensures k <= |cs| && Of(cs)[..i] == Of(cs[..k]) && Of(cs)[i..] == Of(cs[k..])
  {
    if i == 0 {
      k := 0;
      assert cs[0..] == cs;
    } else {
      var u, t := OfChar(cs[0]), Of(cs[1..]);
      var b := Of(cs);
      assert forall j :: 0 <= j < |u| ==> b[j] == u[j];
      CutParts(u, t, i);
      assert i < |b| ==> b[i] == t[i - |u|];
      k := CutAtBoundary(cs[1..], i - |u|);
      OfParts(cs, k);
      k := k + 1;
    }
  }

  lemma CutParts(u: Bytes, t: Bytes, i: nat)
    requires |u| <= i <= |u + t|
    ensures (u + t)[..i] == u + t[..i - |u|] && (u + t)[i..] == t[i - |u|..]
  {}

  lemma OfParts(cs: seq<Scalar>, k: nat)
    requires k < |cs|
    ensures Of(cs[..k + 1]) == OfChar(cs[0]) + Of(cs[1..][..k]) && cs[k + 1..] == cs[1..][k..]
  {
    assert cs[..k + 1][1..] == cs[1..][..k];
  }

  /** There is a boundary among the last four positions before any other. */
  lemma {:induction false} BoundaryNear(cs: seq<Scalar>, m: nat) returns (i: nat)
    requires m <= |Of(cs)|
    ensures i <= m < i + 4 && Boundary(Of(cs), i)
  {
    if m < 4 {
      i := 0;
    } else {
      var u, t := OfChar(cs[0]), Of(cs[1..]);
      var b := Of(cs);
      i := BoundaryNear(cs[1..], m - |u|);
      assert i < |t| ==> b[i + |u|] == t[i];
      if i == 0 && cs[1..] != [] {
        assert b[|u|] == OfChar(cs[1..][0])[0];
      }
      i := i + |u|;
    }
  }

  // ---- reading UTF-8 -----------------------------------------------------------------

  function Low(b: byte): nat { b % 0x40 }

  /** The first character and the bytes it takes, if it is well formed. */
  function FirstChar(b: Bytes): (r: Option<(Scalar, nat)>)
    ensures r.Some? ==> 1 <= r.value.1 <= |b|
  {
    if b == [] then None
    else if b[0] < 0x80 then Some((b[0], 1))
    else if 0xC2 <= b[0] < 0xE0 && |b| >= 2 && Continuation(b[1]) then Some(((b[0] as int - 0xC0) * 0x40 + Low(b[1]), 2))
    else if 0xE0 <= b[0] < 0xF0 && |b| >= 3 && Continuation(b[1]) && Continuation(b[2]) then
      var c := (b[0] as int - 0xE0) * 0x1000 + Low(b[1]) * 0x40 + Low(b[2]);
      if c < 0x800 || 0xD800 <= c < 0xE000 then None else Some((c, 3))
    else if 0xF0 <= b[0] < 0xF5 && |b| >= 4 && Continuation(b[1]) && Continuation(b[2]) && Continuation(b[3]) then
      var c := (b[0] as int - 0xF0) * 0x4_0000 + Low(b[1]) * 0x1000 + Low(b[2]) * 0x40 + Low(b[3]);
      if c < 0x1_0000 || c >= 0x11_0000 then None else Some((c, 4))
    else None
  }

  /** These bytes are valid UTF-8. */
  predicate Valid(b: Bytes) {
    b == [] || (FirstChar(b).Some? && Valid(b[FirstChar(b).value.1..]))
  }

  lemma DividedTwice(c: nat)
    ensures c / 0x1000 == c / 0x40 / 0x40
  {}

  lemma SixBits(c: nat)
    ensures c / 0x40 * 0x40 + c % 0x40 == c
    ensures c / 0x1000 * 0x1000 + c / 0x40 % 0x40 * 0x40 + c % 0x40 == c
    ensures c / 0x4_0000 * 0x4_0000 + c / 0x1000 % 0x40 * 0x1000 + c / 0x40 % 0x40 * 0x40 + c % 0x40 == c
  {
    var q := c / 0x40;
    var r := q / 0x40;
    DividedTwice(c);
    DividedTwice(q);
    assert c / 0x4_0000 == q / 0x1000;
    assert c == 0x40 * q + c % 0x40;
    assert q == 0x40 * r + q % 0x40;
    assert r == 0x40 * (r / 0x40) + r % 0x40;
  }

  lemma FirstCharOf(c: Scalar, rest: Bytes)
    ensures FirstChar(OfChar(c) + rest) == Some((c, |OfChar(c)|))
  {
    var u := OfChar(c);
    var b := u + rest;
    assert |u| <= |b| && forall i :: 0 <= i < |u| ==> b[i] == u[i];
    SixBits(c);
    if 0x80 <= c {
      assert Low(b[|u| - 1]) == c % 0x40;
    }
    if 0x800 <= c {
      assert Low(b[|u| - 2]) == c / 0x40 % 0x40;
    }
    if 0x1_0000 <= c {
      assert Low(b[1]) == c / 0x1000 % 0x40;
    }
  }

  lemma TwoDigits(a: nat, z: nat)
    requires z < 0x40
    ensures (a * 0x40 + z) / 0x40 == a && (a * 0x40 + z) % 0x40 == z
  {}

  lemma ThreeDigits(a: nat, y: nat, z: nat)
    requires y < 0x40 && z < 0x40
    ensures var c := a * 0x1000 + y * 0x40 + z; c / 0x1000 == a && c / 0x40 % 0x40 == y && c % 0x40 == z
  {
    var c, q := a * 0x1000 + y * 0x40 + z, a * 0x40 + y;
    assert c == q * 0x40 + z;
    TwoDigits(q, z);
    TwoDigits(a, y);
    DividedTwice(c);
  }

  lemma FourDigits(a: nat, x: nat, y: nat, z: nat)
    requires x < 0x40 && y < 0x40 && z < 0x40
    ensures var c := a * 0x4_0000 + x * 0x1000 + y * 0x40 + z;
            c / 0x4_0000 == a && c / 0x1000 % 0x40 == x && c / 0x40 % 0x40 == y && c % 0x40 == z
  {
    var c, q, r := a * 0x4_0000 + x * 0x1000 + y * 0x40 + z, a * 0x1000 + x * 0x40 + y, a * 0x40 + x;
    assert c == q * 0x40 + z && q == r * 0x40 + y;
    TwoDigits(q, z);
    TwoDigits(r, y);
    TwoDigits(a, x);
    DividedTwice(c);
    DividedTwice(q);
    assert c / 0x4_0000 == q / 0x1000;
  }

  lemma OfTwo(b: Bytes)
    requires |b| >= 2 && 0xC2 <= b[0] < 0xE0 && Continuation(b[1])
    ensures OfChar((b[0] as int - 0xC0) * 0x40 + Low(b[1])) == b[..2]
  {
    TwoDigits(b[0] - 0xC0, Low(b[1]));
  }

  lemma OfThree(b: Bytes, c: nat)
    requires |b| >= 3 && 0xE0 <= b[0] < 0xF0 && Continuation(b[1]) && Continuation(b[2])
    requires c == (b[0] as int - 0xE0) * 0x1000 + Low(b[1]) * 0x40 + Low(b[2]) && c >= 0x800 && !(0xD800 <= c < 0xE000)
    ensures OfChar(c) == b[..3]
  {
    ThreeDigits(b[0] - 0xE0, Low(b[1]), Low(b[2]));
  }

  lemma OfFour(b: Bytes, c: nat)
    requires |b| >= 4 && 0xF0 <= b[0] < 0xF5 && Continuation(b[1]) && Continuation(b[2]) && Continuation(b[3])
    requires c == (b[0] as int - 0xF0) * 0x4_0000 + Low(b[1]) * 0x1000 + Low(b[2]) * 0x40 + Low(b[3]) && 0x1_0000 <= c < 0x11_0000
    ensures OfChar(c) == b[..4]
  {
    FourDigits(b[0] - 0xF0, Low(b[1]), Low(b[2]), Low(b[3]));
  }

  lemma OfFirstChar(b: Bytes)
    requires FirstChar(b).Some?
    ensures var (c, n) := FirstChar(b).value; OfChar(c) == b[..n]
  {
    var (c, n) := FirstChar(b).value;
    if n == 2 {
      OfTwo(b);
    } else if n == 3 {
      OfThree(b, c);
    } else if n == 4 {
      OfFour(b, c);
    }
  }

  /** What encodes a text is well formed. */
  lemma {:induction false} ValidOf(cs: seq<Scalar>)
    ensures Valid(Of(cs))
  {
    if cs != [] {
      FirstCharOf(cs[0], Of(cs[1..]));
      ValidOf(cs[1..]);
      assert Of(cs)[|OfChar(cs[0])|..] == Of(cs[1..]);
    }
  }

  /** And what is well formed encodes a text. */
  lemma {:induction false} ValidIsOf(b: Bytes) returns (cs: seq<Scalar>)
    requires Valid(b)
    ensures Of(cs) == b
  {
    if b == [] {
      cs := [];
    } else {
      var (c, n) := FirstChar(b).value;
      OfFirstChar(b);
      cs := ValidIsOf(b[n..]);
      assert b == b[..n] + b[n..];
      cs := [c] + cs;
    }
  }

  /** A byte string is well formed exactly when it encodes some text. */
  lemma ValidExactly(b: Bytes)
    ensures Valid(b) <==> exists cs: seq<Scalar> :: Of(cs) == b
  {
    if Valid(b) {
      var cs := ValidIsOf(b);
    }
    if cs: seq<Scalar> :| Of(cs) == b {
      ValidOf(cs);
    }
  }

  function Concat<T>(parts: seq<seq<T>>): seq<T> {
    if parts == [] then [] else Concat(parts[..|parts| - 1]) + parts[|parts| - 1]
  }

  lemma ConcatOfOneMore<T>(parts: seq<seq<T>>, part: seq<T>)
    ensures Concat(parts + [part]) == Concat(parts) + part
  {
    assert (parts + [part])[..|parts|] == parts;
  }
}
