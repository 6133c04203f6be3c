/** `guivault-crypto`, symbolically: an AEAD blob is a free constructor over
    the key, the associated data and the plaintext; a digest is a free
    constructor over what it digests. The associated data are the real
    layouts, character by character. */
module Crypto {
  import opened Wrappers
  import opened Text

  datatype Key = Key(n: nat)

  datatype Digest = Sha256(of: Blob)

  datatype Manifest = Manifest(v: int, counter: int, items: map<string, Digest>)

  /** What is under a seal: raw bytes, or the JSON of a manifest (of which
      only the content and the length matter). */
  datatype Plain =
    | Bytes(data: seq<byte>)
    | ManifestJson(manifest: Manifest, length: nat)

  datatype Blob =
    | Raw(size: nat, content: nat)
    | Sealed(key: Key, aad: string, plain: Plain, nonce: nat)

  datatype CryptoError = Decrypt | Format

  /** Version byte, nonce and tag. */
  const OVERHEAD := 1 + 24 + 16

  const EMPTY := Raw(0, 0)

  function PlainSize(p: Plain): nat {
    match p
    case Bytes(data) => |data|
    case ManifestJson(_, length) => length
  }

  function Size(b: Blob): nat {
    match b
    case Raw(size, _) => size
    case Sealed(_, _, plain, _) => OVERHEAD + PlainSize(plain)
  }

  function Seal(key: Key, plain: Plain, aad: string, nonce: nat): Blob {
    Sealed(key, aad, plain, nonce)
  }

  function Open(key: Key, blob: Blob, aad: string): Result<Plain, CryptoError> {
    if blob.Sealed? && blob.key == key && blob.aad == aad then Ok(blob.plain) else Err(Decrypt)
  }
}

/** The associated data of everything GuiVault seals. */
module Aad {
  import opened Text

  /** What a seal is for. */
  datatype Purpose =
    | Item(vault: string, item: string, itemType: string)
    | VaultKey(vault: string)
    | EmergencyKey(vault: string)
    | UserKey
    | PrivateKey
    | UserSettings
    | Export
    | Send(send: string)
    | SendOwner(send: string)
    | SendFile(send: string, index: nat, last: bool)
    | PasskeyUserKey(credential: string)
    | Attachment(attachment: string, index: nat, last: bool)
    | CliSession(user: string)

  function Flag(b: bool): (s: string)
    ensures |s| == 1 && IsDigit(s[0])
  {
    if b then "1" else "0"
  }

  function ItemAad(vault: string, item: string, itemType: string): string {
    "guivault/v1/item\0" + vault + "\0" + item + "\0" + itemType
  }

  function EnvelopeAad(context: string, vault: string): string {
    context + "\0" + vault
  }

  function SendAad(context: string, send: string): string {
    context + "\0" + send
  }

  function SendChunkAad(send: string, index: nat, last: bool): string {
    "guivault/v1/send-file\0" + send + "\0" + Decimal(index) + "\0" + Flag(last)
  }

  function PasskeyAad(credential: string): string {
    "guivault/v1/passkey-user-key\0" + credential
  }

  function ChunkAad(attachment: string, index: nat, last: bool): string {
    "guivault/v1/attachment\0" + attachment + "\0" + Decimal(index) + "\0" + Flag(last)
  }

  function SessionAad(user: string): string {
    "guivault/cli/session\0" + user
  }

  function Of(p: Purpose): string {
    match p
    case Item(v, i, t) => ItemAad(v, i, t)
    case VaultKey(v) => EnvelopeAad("guivault/v2/vault-key", v)
    case EmergencyKey(v) => EnvelopeAad("guivault/v2/emergency-key", v)
    case UserKey => "guivault/v1/user-key"
    case PrivateKey => "guivault/v1/private-key"
    case UserSettings => "guivault/v1/user-settings"
    case Export => "guivault/v1/export"
    case Send(s) => SendAad("guivault/v1/send", s)
    case SendOwner(s) => SendAad("guivault/v1/send-owner", s)
    case SendFile(s, i, last) => SendChunkAad(s, i, last)
    case PasskeyUserKey(c) => PasskeyAad(c)
    case Attachment(a, i, last) => ChunkAad(a, i, last)
    case CliSession(u) => SessionAad(u)
  }

  /** Identifiers are UUID texts and item types are checked on the way in:
      neither holds a NUL. A passkey's credential id is arbitrary. */
  ghost predicate NulFreeIds(p: Purpose) {
    match p
    case Item(v, i, _) => NulFree(v) && NulFree(i)
    case SendFile(s, _, _) => NulFree(s)
    case Attachment(a, _, _) => NulFree(a)
    case _ => true
  }

  // ---- the first field ends at the first NUL ---------------------------------

  lemma SplitAtNul(a: string, x: string, b: string, y: string)
    requires NulFree(a) && NulFree(b)
    requires a + "\0" + x == b + "\0" + y
    ensures a == b && x == y
  {
    var s := a + "\0" + x;
    assert s[|a|] == '\0' && s[|b|] == '\0';
    assert forall i :: 0 <= i < |a| ==> s[i] == a[i];
    assert forall i :: 0 <= i < |b| ==> s[i] == b[i];
    assert a == s[..|a|] && b == s[..|a|];
    assert x == s[|a| + 1..] && y == s[|a| + 1..];
  }

  lemma NulOnlyOnOneSide(a: string, b: string, y: string)
    requires NulFree(a)
    ensures a != b + "\0" + y
  {
    assert (b + "\0" + y)[|b|] == '\0';
  }

  lemma DigitsNulFree(s: string)
    requires AllDigits(s)
    ensures NulFree(s)
  {}

  /** Three NUL-separated fields, as two applications of the split. */
  lemma ThreeFields(a: string, b: string, c: string, x: string, y: string, z: string)
    requires NulFree(a) && NulFree(b) && NulFree(x) && NulFree(y)
    requires a + "\0" + b + "\0" + c == x + "\0" + y + "\0" + z
    ensures a == x && b == y && c == z
  {
    assert a + "\0" + b + "\0" + c == a + "\0" + (b + "\0" + c);
    assert x + "\0" + y + "\0" + z == x + "\0" + (y + "\0" + z);
    SplitAtNul(a, b + "\0" + c, x, y + "\0" + z);
    SplitAtNul(b, c, y, z);
  }

  // ---- a tag, then the rest --------------------------------------------------

  function Tag(p: Purpose): string {
    match p
    case Item(_, _, _) => "guivault/v1/item"
    case VaultKey(_) => "guivault/v2/vault-key"
    case EmergencyKey(_) => "guivault/v2/emergency-key"
    case UserKey => "guivault/v1/user-key"
    case PrivateKey => "guivault/v1/private-key"
    case UserSettings => "guivault/v1/user-settings"
    case Export => "guivault/v1/export"
    case Send(_) => "guivault/v1/send"
    case SendOwner(_) => "guivault/v1/send-owner"
    case SendFile(_, _, _) => "guivault/v1/send-file"
    case PasskeyUserKey(_) => "guivault/v1/passkey-user-key"
    case Attachment(_, _, _) => "guivault/v1/attachment"
    case CliSession(_) => "guivault/cli/session"
  }

  predicate Bare(p: Purpose) { p.UserKey? || p.PrivateKey? || p.UserSettings? || p.Export? }

  function Rest(p: Purpose): string {
    match p
    case Item(v, i, t) => v + "\0" + i + "\0" + t
    case VaultKey(v) => v
    case EmergencyKey(v) => v
    case Send(s) => s
    case SendOwner(s) => s
    case SendFile(s, i, last) => s + "\0" + Decimal(i) + "\0" + Flag(last)
    case PasskeyUserKey(c) => c
    case Attachment(a, i, last) => a + "\0" + Decimal(i) + "\0" + Flag(last)
    case CliSession(u) => u
    case _ => ""
  }

  lemma Layout(p: Purpose)
    ensures NulFree(Tag(p))
    ensures Of(p) == if Bare(p) then Tag(p) else Tag(p) + "\0" + Rest(p)
  {
    TagNulFree(p);
    match p
    case Item(v, i, t) => GlueThree("guivault/v1/item\0", Tag(p), v, i, t);
    case SendFile(s, i, last) => GlueThree("guivault/v1/send-file\0", Tag(p), s, Decimal(i), Flag(last));
    case PasskeyUserKey(c) => GlueOne("guivault/v1/passkey-user-key\0", Tag(p), c);
    case Attachment(a, i, last) => GlueThree("guivault/v1/attachment\0", Tag(p), a, Decimal(i), Flag(last));
    case CliSession(u) => GlueOne("guivault/cli/session\0", Tag(p), u);
    case _ =>
  }

  lemma TagNulFree(p: Purpose)
    ensures NulFree(Tag(p))
  {}

  lemma GlueOne(head: string, tag: string, a: string)
    requires head == tag + "\0"
    ensures head + a == tag + "\0" + a
  {}

  lemma GlueThree(head: string, tag: string, a: string, b: string, c: string)
    requires head == tag + "\0"
    ensures head + a + "\0" + b + "\0" + c == tag + "\0" + (a + "\0" + b + "\0" + c)
  {
    assert head + a + "\0" + b + "\0" + c == head + (a + "\0" + b + "\0" + c);
  }

  /** Two purposes share their associated data only when they are the same
      purpose: every layout is injective and all are pairwise disjoint. */
  lemma Separation(p: Purpose, q: Purpose)
    requires NulFreeIds(p) && NulFreeIds(q)
    requires Of(p) == Of(q)
    ensures p == q
  {
    Layout(p);
    Layout(q);
    if Bare(p) && !Bare(q) {
      NulOnlyOnOneSide(Tag(p), Tag(q), Rest(q));
    } else if !Bare(p) && Bare(q) {
      NulOnlyOnOneSide(Tag(q), Tag(p), Rest(p));
    } else if !Bare(p) {
      SplitAtNul(Tag(p), Rest(p), Tag(q), Rest(q));
      SameTag(p, q);
      SameRest(p, q);
    } else {
      SameTag(p, q);
    }
  }

  /** With a NUL in an identifier two items would share theirs. */
  lemma NulWouldCollide(a: string, b: string, c: string, d: string)
    ensures Of(Item(a + "\0" + b, c, d)) == Of(Item(a, b, c + "\0" + d))
    ensures Item(a + "\0" + b, c, d) != Item(a, b, c + "\0" + d)
  {
    var tag := "guivault/v1/item\0";
    Regroup(tag, a, b, c, d);
    assert |a + "\0" + b| > |a|;
  }

  lemma Regroup(tag: string, a: string, b: string, c: string, d: string)
    ensures tag + (a + "\0" + b) + "\0" + c + "\0" + d == tag + a + "\0" + b + "\0" + (c + "\0" + d)
  {}

  lemma SameTag(p: Purpose, q: Purpose)
    requires Tag(p) == Tag(q)
    ensures p.Item? <==> q.Item?
    ensures p.VaultKey? <==> q.VaultKey?
    ensures p.EmergencyKey? <==> q.EmergencyKey?
    ensures p.UserKey? <==> q.UserKey?
    ensures p.PrivateKey? <==> q.PrivateKey?
    ensures p.UserSettings? <==> q.UserSettings?
    ensures p.Export? <==> q.Export?
    ensures p.Send? <==> q.Send?
    ensures p.SendOwner? <==> q.SendOwner?
    ensures p.SendFile? <==> q.SendFile?
    ensures p.PasskeyUserKey? <==> q.PasskeyUserKey?
    ensures p.Attachment? <==> q.Attachment?
    ensures p.CliSession? <==> q.CliSession?
  {
    // Tags of one length differ in their thirteenth character, or before.
    assert |Tag(p)| == |Tag(q)| && Tag(p)[10] == Tag(q)[10] && Tag(p)[12] == Tag(q)[12];
  }

  lemma SameRest(p: Purpose, q: Purpose)
    requires NulFreeIds(p) && NulFreeIds(q) && !Bare(p)
    requires Tag(p) == Tag(q) && Rest(p) == Rest(q)
    ensures p == q
  {
    SameTag(p, q);
    match p
    case Item(v, i, t) => ThreeFields(v, i, t, q.vault, q.item, q.itemType);
    case SendFile(s, i, last) =>
      DigitsNulFree(Decimal(i));
      DigitsNulFree(Decimal(q.index));
      ThreeFields(s, Decimal(i), Flag(last), q.send, Decimal(q.index), Flag(q.last));
      DecimalInjective(i, q.index);
    case Attachment(a, i, last) =>
      DigitsNulFree(Decimal(i));
      DigitsNulFree(Decimal(q.index));
      ThreeFields(a, Decimal(i), Flag(last), q.attachment, Decimal(q.index), Flag(q.last));
      DecimalInjective(i, q.index);
    case _ =>
  }
}
