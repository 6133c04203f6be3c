/** The manifest of a vault: what it lists, how it is sealed, and what a reader
    finds out by checking what it is served against it. */
module Manifests {
  import opened Wrappers
  import opened Seqs
  import opened Text
  import opened Crypto
  import Aad

  const MANIFEST_ID := "00000000-0000-0000-0000-000000000000"
  const MANIFEST_TYPE := "manifest"
  const MANIFEST_VERSION := 1

  // ---- writing ----------------------------------------------------------------------

  function Digests(items: seq<(string, Blob)>): map<string, Digest> {
    if items == [] then map[]
    else
      var (id, ciphertext) := items[|items| - 1];
      Digests(items[..|items| - 1])[id := Sha256(ciphertext)]
  }

  /** The manifest of a set of items, at that counter. */
  function Of(counter: int, items: seq<(string, Blob)>): Manifest {
    Manifest(MANIFEST_VERSION, counter, Digests(items))
  }

  /** The next one, on the revision the server announces. */
  function Next(m: Manifest, base: int): Manifest { Manifest(MANIFEST_VERSION, base + 1, m.items) }

  function Put(m: Manifest, id: string, ciphertext: Blob): Manifest { m.(items := m.items[id := Sha256(ciphertext)]) }

  function Remove(m: Manifest, id: string): Manifest { m.(items := m.items - {id}) }

  function ManifestAad(vault: string): string { Aad.ItemAad(vault, MANIFEST_ID, MANIFEST_TYPE) }

  function SealManifest(key: Key, vault: string, m: Manifest, length: nat, nonce: nat): Blob {
    Seal(key, ManifestJson(m, length), ManifestAad(vault), nonce)
  }

  function OpenManifest(key: Key, vault: string, blob: Blob): Result<Manifest, CryptoError> {
    var plain := Open(key, blob, ManifestAad(vault));
    if plain.Err? then Err(plain.error)
    else if !plain.value.ManifestJson? || plain.value.manifest.v != MANIFEST_VERSION then Err(Format)
    else Ok(plain.value.manifest)
  }

  /** An item's ciphertext never passes for a manifest, nor the manifest of
      another vault for this one's. */
  lemma OnlyManifestsOpen(key: Key, vault: string, owner: string, item: string, itemType: string, plain: Plain, nonce: nat)
    requires NulFree(vault) && NulFree(owner) && NulFree(item)
    requires OpenManifest(key, vault, Seal(key, plain, Aad.ItemAad(owner, item, itemType), nonce)).Ok?
    ensures owner == vault && item == MANIFEST_ID && itemType == MANIFEST_TYPE
  {
    Aad.Separation(Aad.Item(vault, MANIFEST_ID, MANIFEST_TYPE), Aad.Item(owner, item, itemType));
  }

  /** What opens as the manifest of a vault: what was sealed under its key, the
      vault, the nil identifier and the type `manifest`, in the first format. */
  lemma OpensExactly(key: Key, vault: string, blob: Blob, m: Manifest)
    ensures OpenManifest(key, vault, blob) == Ok(m) <==>
            && blob.Sealed? && blob.key == key
            && blob.aad == "guivault/v1/item\0" + vault + "\0" + "00000000-0000-0000-0000-000000000000" + "\0" + "manifest"
            && blob.plain.ManifestJson? && blob.plain.manifest == m && m.v == 1
  {
    assert ManifestAad(vault) == "guivault/v1/item\0" + vault + "\0" + "00000000-0000-0000-0000-000000000000" + "\0" + "manifest";
  }

  // ---- checking ---------------------------------------------------------------------

  datatype Problem =
    | Missing(seen: int)
    | Unreadable
    | Mismatch(counter: int, revision: int)
    | Rollback(counter: int, last: int)
    | Unexpected(itemId: string)
    | Altered(itemId: string)
    | Withheld(itemId: string)

  type Served = Option<(int, Blob)>
  type Pairs = seq<(string, Digest)>

  function Opened(key: Key, vault: string, served: Served): Option<Manifest> {
    if served.Some? && OpenManifest(key, vault, served.value.1).Ok?
    then Some(OpenManifest(key, vault, served.value.1).value) else None
  }

  ghost predicate ServedAs(pairs: Pairs, id: string, digest: Digest) { (id, digest) in pairs }

  /** What each problem says about what was served. */
  ghost predicate Cause(p: Problem, key: Key, vault: string, served: Served, pairs: Pairs, seen: Option<int>) {
    var m := Opened(key, vault, served);
    match p
    case Missing(s) => served.None? && seen == Some(s) && s > 0
    case Unreadable => served.Some? && m.None?
    case Mismatch(c, r) => m.Some? && m.value.counter == c && served.value.0 == r && c != r
    case Rollback(c, s) => m.Some? && m.value.counter == c && seen == Some(s) && s > c
    case Unexpected(id) => m.Some? && id !in m.value.items && exists d :: ServedAs(pairs, id, d)
    case Altered(id) => m.Some? && id in m.value.items && exists d :: ServedAs(pairs, id, d) && d != m.value.items[id]
    case Withheld(id) => m.Some? && id in m.value.items && forall d :: !ServedAs(pairs, id, d)
  }

  /** The text the item problems are sorted by. */
  function DebugText(p: Problem): string {
    match p
    case Unexpected(id) => "Unexpected { item_id: \"" + id + "\" }"
    case Altered(id) => "Altered { item_id: \"" + id + "\" }"
    case Withheld(id) => "Withheld { item_id: \"" + id + "\" }"
    case _ => ""
  }

  function CharCode(): char -> int { (c: char) => c as int }

  function DebugAtMost(): (Problem, Problem) -> bool {
    (p: Problem, q: Problem) => LexAtMost(DebugText(p), DebugText(q), CharCode())
  }

  lemma DebugOrder()
    ensures TotalOrder(DebugAtMost())
  {
    forall x, y ensures DebugAtMost()(x, y) || DebugAtMost()(y, x) {
      LexTotal(DebugText(x), DebugText(y), CharCode());
    }
    forall x, y, z | DebugAtMost()(x, y) && DebugAtMost()(y, z) ensures DebugAtMost()(x, z) {
      LexTransitive(DebugText(x), DebugText(y), DebugText(z), CharCode());
    }
  }

  predicate OnItem(p: Problem) { p.Unexpected? || p.Altered? || p.Withheld? }

  /** The problems are reported exactly when their cause is there; those about
      the manifest itself come first, those about items are sorted. */
  ghost predicate Report(problems: seq<Problem>, key: Key, vault: string, served: Served, pairs: Pairs, seen: Option<int>) {
    && (forall p :: p in problems <==> Cause(p, key, vault, served, pairs, seen))
    && (forall i, j :: 0 <= i < j < |problems| ==> InOrder(problems[i], problems[j]))
  }

  ghost predicate InOrder(p: Problem, q: Problem) {
    && (OnItem(p) ==> OnItem(q) && DebugAtMost()(p, q))
    && !(p.Rollback? && q.Mismatch?)
  }

  /** Problems about items come by kind, and within a kind by identifier. */
  lemma OrderOnItems(p: Problem, q: Problem)
    requires OnItem(p) && OnItem(q) && InOrder(p, q)
    ensures p.Altered? || (p.Unexpected? && !q.Altered?) || (p.Withheld? && q.Withheld?)
    ensures (p.Altered? && q.Altered?) || (p.Unexpected? && q.Unexpected?) || (p.Withheld? && q.Withheld?) ==>
              |p.itemId| == |q.itemId| ==> LexAtMost(p.itemId, q.itemId, CharCode())
  {
    assert DebugText(p)[0] == (if p.Altered? then 'A' else if p.Unexpected? then 'U' else 'W');
    assert DebugText(q)[0] == (if q.Altered? then 'A' else if q.Unexpected? then 'U' else 'W');
    if |p.itemId| == |q.itemId| {
      if p.Altered? && q.Altered? {
        LexBetween("Altered { item_id: \"", p.itemId, q.itemId, "\" }", CharCode());
      } else if p.Unexpected? && q.Unexpected? {
        LexBetween("Unexpected { item_id: \"", p.itemId, q.itemId, "\" }", CharCode());
      } else if p.Withheld? && q.Withheld? {
        LexBetween("Withheld { item_id: \"", p.itemId, q.itemId, "\" }", CharCode());
      }
    }
  }

  /** The checks of one vault, in the code's order. */
  method Verify(key: Key, vault: string, served: Served, pairs: Pairs, seen: Option<int>)
    returns (manifest: Option<Manifest>, problems: seq<Problem>)
    ensures manifest == Opened(key, vault, served)
    ensures Report(problems, key, vault, served, pairs, seen)
  {
    problems := [];
    if served.None? {
      if seen.Some? && seen.value > 0 {
        problems := [Missing(seen.value)];
      }
      return None, problems;
    }
    var (revision, blob) := served.value;
    var attempt := OpenManifest(key, vault, blob);
    if attempt.Err? {
      return None, [Unreadable];
    }
    var m := attempt.value;
    if m.counter != revision {
      problems := problems + [Mismatch(m.counter, revision)];
    }
    if seen.Some? && seen.value > m.counter {
      problems := problems + [Rollback(m.counter, seen.value)];
    }
    var onItems := CheckItems(m, pairs);
    Assembled(key, vault, served, pairs, seen, m, problems, onItems);
    problems := problems + Sort(onItems, DebugAtMost());
    return Some(m), problems;
  }

  lemma Assembled(key: Key, vault: string, served: Served, pairs: Pairs, seen: Option<int>,
                  m: Manifest, head: seq<Problem>, onItems: seq<Problem>)
    requires Opened(key, vault, served) == Some(m)
    requires forall p :: p in head <==> !OnItem(p) && Cause(p, key, vault, served, pairs, seen)
    requires forall i, j :: 0 <= i < j < |head| ==> InOrder(head[i], head[j])
    requires forall p :: p in onItems <==> OnItem(p) && Cause(p, key, vault, served, pairs, seen)
    ensures Report(head + Sort(onItems, DebugAtMost()), key, vault, served, pairs, seen)
  {
    SameMembers(onItems, Sort(onItems, DebugAtMost()));
    InReportOrder(head, onItems);
  }

  lemma InReportOrder(head: seq<Problem>, onItems: seq<Problem>)
    requires forall p :: p in head ==> !OnItem(p)
    requires forall p :: p in onItems ==> OnItem(p)
    requires forall i, j :: 0 <= i < j < |head| ==> InOrder(head[i], head[j])
    ensures var all := head + Sort(onItems, DebugAtMost());
            forall i, j :: 0 <= i < j < |all| ==> InOrder(all[i], all[j])
  {
    var sorted := Sort(onItems, DebugAtMost());
    DebugOrder();
    SortSorted(onItems, DebugAtMost());
    SameMembers(onItems, sorted);
    var all := head + sorted;
    forall i, j | 0 <= i < j < |all| ensures InOrder(all[i], all[j]) {
      if i >= |head| {
        SortedInOrder(sorted, i - |head|, j - |head|);
      } else {
        assert head[i] in head;
        assert j >= |head| ==> sorted[j - |head|] in sorted;
      }
    }
  }

  lemma SortedInOrder(sorted: seq<Problem>, i: nat, j: nat)
    requires i < j < |sorted| && Pairwise(sorted, DebugAtMost())
    requires forall p :: p in sorted ==> OnItem(p)
    ensures InOrder(sorted[i], sorted[j])
  {
    assert DebugAtMost()(sorted[i], sorted[j]) && sorted[i] in sorted && sorted[j] in sorted;
  }

  /** The problems about items: first along what is served, then along what
      the manifest lists. */
  method CheckItems(m: Manifest, pairs: Pairs) returns (problems: seq<Problem>)
    ensures forall p :: p in problems ==> OnItem(p)
    ensures forall id :: Unexpected(id) in problems <==> id !in m.items && exists d :: ServedAs(pairs, id, d)
    ensures forall id :: Altered(id) in problems <==> id in m.items && exists d :: ServedAs(pairs, id, d) && d != m.items[id]
    ensures forall id :: Withheld(id) in problems <==> id in m.items && forall d :: !ServedAs(pairs, id, d)
  {
    problems := [];
    var servedIds: set<string> := {};
    for i := 0 to |pairs|
      invariant forall id :: id in servedIds <==> exists d :: ServedAs(pairs[..i], id, d)
      invariant forall p :: p in problems ==> p.Unexpected? || p.Altered?
      invariant forall id :: Unexpected(id) in problems <==> id !in m.items && exists d :: ServedAs(pairs[..i], id, d)
      invariant forall id :: Altered(id) in problems <==>
                             id in m.items && exists d :: ServedAs(pairs[..i], id, d) && d != m.items[id]
    {
      var (id, digest) := pairs[i];
      assert forall x, d :: ServedAs(pairs[..i + 1], x, d) <==> ServedAs(pairs[..i], x, d) || (x, d) == (id, digest);
      assert ServedAs(pairs[..i + 1], id, digest);
      servedIds := servedIds + {id};
      if id !in m.items {
        problems := problems + [Unexpected(id)];
      } else if m.items[id] != digest {
        problems := problems + [Altered(id)];
      }
    }
    assert pairs[..|pairs|] == pairs;
    var left := m.items.Keys;
    ghost var checked := problems;
    while left != {}
      invariant left <= m.items.Keys
      invariant forall p :: p in problems <==>
                            p in checked || (p.Withheld? && p.itemId in m.items && p.itemId !in left && p.itemId !in servedIds)
      decreases |left|
    {
      var id :| id in left;
      left := left - {id};
      if id !in servedIds {
        problems := problems + [Withheld(id)];
      }
    }
  }

  // ---- what no problem means ------------------------------------------------------------

  ghost predicate Clean(key: Key, vault: string, served: Served, pairs: Pairs, seen: Option<int>) {
    forall p :: !Cause(p, key, vault, served, pairs, seen)
  }

  lemma NoProblemIsClean(problems: seq<Problem>, key: Key, vault: string, served: Served, pairs: Pairs, seen: Option<int>)
    requires Report(problems, key, vault, served, pairs, seen)
    ensures problems == [] <==> Clean(key, vault, served, pairs, seen)
  {
    if problems != [] {
      assert problems[0] in problems;
    }
  }

  /** What is served is exactly what the manifest lists. */
  ghost predicate Lists(m: Manifest, pairs: Pairs) {
    forall id, d :: ServedAs(pairs, id, d) <==> id in m.items && m.items[id] == d
  }

  /** Verification is sound and complete: no problem means that nothing was
      served nor ever seen, or that the manifest opens, carries the announced
      counter, is no older than the last one seen, and lists exactly the items
      served with exactly their digests. */
  lemma CleanMeans(key: Key, vault: string, served: Served, pairs: Pairs, seen: Option<int>)
    ensures Clean(key, vault, served, pairs, seen) <==>
            if served.None? then seen.None? || seen.value <= 0
            else
              var m := Opened(key, vault, served);
              && m.Some?
              && m.value.counter == served.value.0
              && (seen.Some? ==> seen.value <= m.value.counter)
              && Lists(m.value, pairs)
  {
    var m := Opened(key, vault, served);
    if Clean(key, vault, served, pairs, seen) {
      if served.None? {
        assert seen.Some? ==> !Cause(Missing(seen.value), key, vault, served, pairs, seen);
      } else {
        assert !Cause(Unreadable, key, vault, served, pairs, seen);
        assert !Cause(Mismatch(m.value.counter, served.value.0), key, vault, served, pairs, seen);
        assert seen.Some? ==> !Cause(Rollback(m.value.counter, seen.value), key, vault, served, pairs, seen);
        forall id, d ensures ServedAs(pairs, id, d) <==> id in m.value.items && m.value.items[id] == d {
          assert !Cause(Unexpected(id), key, vault, served, pairs, seen);
          assert !Cause(Altered(id), key, vault, served, pairs, seen);
          assert !Cause(Withheld(id), key, vault, served, pairs, seen);
        }
      }
    } else {
      var p :| Cause(p, key, vault, served, pairs, seen);
      if m.Some? && p.Withheld? {
        assert !ServedAs(pairs, p.itemId, m.value.items[p.itemId]);
      }
    }
  }
}
