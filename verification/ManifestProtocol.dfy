/** The manifest kept by honest clients and the store together: over whole
    runs, what a reader is served matches the manifest it is served. */
module ManifestProtocol {
  import opened Wrappers
  import opened Seqs
  import opened Text
  import opened Crypto
  import opened VaultModel
  import opened VaultLaws
  import opened LocalStore
  import opened LocalStoreLaws
  import History
  import Manifests
  import Sync

  // ---- what a reader checks -----------------------------------------------------------

  function PairOf(): Sync.ItemView -> (string, Digest) {
    (i: Sync.ItemView) => (UuidText(i.id), Sha256(i.ciphertext))
  }

  function BlobOf(): Sync.ItemView -> (string, Blob) { (i: Sync.ItemView) => (UuidText(i.id), i.ciphertext) }

  /** The served manifest, with the revision announced. */
  function ServedManifest(v: Vault): Manifests.Served {
    if v.manifest.Some? then Some((v.manifestRevision, v.manifest.value)) else None
  }

  /** The (id, digest) pairs of a full read. */
  function ServedPairs(v: Vault): Manifests.Pairs { Map(Sync.Items(v, None).items, PairOf()) }

  ghost predicate VerifiesClean(key: Key, v: Vault, seen: Option<int>) {
    Manifests.Clean(key, UuidText(v.id), ServedManifest(v), ServedPairs(v), seen)
  }

  // ---- agreement ------------------------------------------------------------------------

  /** The manifest lists the items of a full read and the digest of each. */
  ghost predicate ListsMirror(m: Manifest, live: Sync.Mirror) {
    && (forall id: Uuid :: UuidText(id) in m.items <==> id in live)
    && (forall id: Uuid :: id in live ==> m.items[UuidText(id)] == Sha256(live[id].ciphertext))
    && (forall s :: s in m.items ==> exists id: Uuid :: UuidText(id) == s)
  }

  ghost predicate ListsLive(m: Manifest, v: Vault) { ListsMirror(m, Sync.Live(v)) }

  function ManifestOf(key: Key, v: Vault): Option<Manifest> { Manifests.Opened(key, UuidText(v.id), ServedManifest(v)) }

  ghost predicate Agrees(key: Key, v: Vault) {
    var m := ManifestOf(key, v);
    m.Some? && m.value.counter == v.manifestRevision && ListsLive(m.value, v)
  }

  lemma PairsOfLive(v: Vault, id: Uuid, d: Digest)
    requires Pairwise(v.items, Apart)
    ensures (UuidText(id), d) in ServedPairs(v) <==> id in Sync.Live(v) && d == Sha256(Sync.Live(v)[id].ciphertext)
  {
    var page := Sync.Items(v, None).items;
    Sync.SelectedOnce(v, None);
    Sync.ApplyGet(map[], page, id);
    Sync.LiveGet(v, id);
    Sync.PageLookup(v, None, id);
    if (UuidText(id), d) in ServedPairs(v) {
      var k :| 0 <= k < |page| && ServedPairs(v)[k] == (UuidText(id), d);
      UuidTextInjective(page[k].id, id);
      assert page[k] in page;
      OneOfId(page, page[k]);
    }
    if id in Sync.Live(v) {
      var x := Sync.Lookup(page, id).value;
      var k :| 0 <= k < |page| && page[k] == x;
      assert ServedPairs(v)[k] == (UuidText(id), Sha256(x.ciphertext));
    }
  }

  lemma {:induction false} OneOfId(page: seq<Sync.ItemView>, x: Sync.ItemView)
    requires Sync.DistinctViews(page) && x in page
    ensures Sync.Lookup(page, x.id) == Some(x)
  {
    if page[0].id == x.id {
      assert forall k :: 0 < k < |page| ==> page[0].id != page[k].id;
    } else {
      OneOfId(page[1..], x);
    }
  }

  /** When the manifest agrees with the store, a reader finds nothing to
      report, whatever counter up to the present one it has seen. */
  lemma AgreementVerifies(key: Key, v: Vault, seen: Option<int>)
    requires Valid(v) && Agrees(key, v)
    requires seen.Some? ==> seen.value <= v.manifestRevision
    ensures VerifiesClean(key, v, seen)
  {
    var m := ManifestOf(key, v).value;
    var pairs := ServedPairs(v);
    forall s, d ensures Manifests.ServedAs(pairs, s, d) <==> s in m.items && m.items[s] == d {
      if exists id: Uuid :: UuidText(id) == s {
        var id: Uuid :| UuidText(id) == s;
        PairsOfLive(v, id, d);
      } else {
        assert forall k :: 0 <= k < |pairs| ==> pairs[k].0 == UuidText(Sync.Items(v, None).items[k].id);
      }
    }
    Manifests.CleanMeans(key, UuidText(v.id), ServedManifest(v), pairs, seen);
  }

  // ---- honest clients ---------------------------------------------------------------------

  /** The next manifest of a client that wrote `item`, from the manifest it
      read with the vault `known`. */
  ghost predicate HonestPut(key: Key, known: Vault, item: Uuid, ciphertext: Blob, write: ManifestWrite) {
    var m := ManifestOf(key, known);
    && m.Some?
    && write.baseRevision == known.manifestRevision
    && Manifests.OpenManifest(key, UuidText(known.id), write.ciphertext)
       == Ok(Manifests.Put(Manifests.Next(m.value, known.manifestRevision), UuidText(item), ciphertext))
  }

  ghost predicate HonestDelete(key: Key, known: Vault, item: Uuid, write: ManifestWrite) {
    var m := ManifestOf(key, known);
    && m.Some?
    && write.baseRevision == known.manifestRevision
    && Manifests.OpenManifest(key, UuidText(known.id), write.ciphertext)
       == Ok(Manifests.Remove(Manifests.Next(m.value, known.manifestRevision), UuidText(item)))
  }

  /** The manifest of what was read, created or rewritten on that read. */
  ghost predicate HonestRewrite(key: Key, known: Vault, req: PutManifestRequest) {
    && req.baseRevision == known.manifestRevision
    && req.vaultRevision == known.revision
    && Manifests.OpenManifest(key, UuidText(known.id), req.ciphertext)
       == Ok(Manifests.Of(known.manifestRevision + 1, Map(Sync.Items(known, None).items, BlobOf())))
  }

  /** What is sealed opens as what was meant. */
  lemma SealOpens(key: Key, vault: string, m: Manifest, length: nat, nonce: nat)
    requires m.v == Manifests.MANIFEST_VERSION
    ensures Manifests.OpenManifest(key, vault, Manifests.SealManifest(key, vault, m, length, nonce)) == Ok(m)
  {}

  /** Whatever a client reads, it can rewrite the manifest honestly. */
  lemma RewriteCanBeHonest(key: Key, known: Vault, length: nat, nonce: nat)
    ensures var m := Manifests.Of(known.manifestRevision + 1, Map(Sync.Items(known, None).items, BlobOf()));
            var sealed := Manifests.SealManifest(key, UuidText(known.id), m, length, nonce);
            HonestRewrite(key, known, PutManifestRequest(sealed, known.manifestRevision, known.revision))
  {
    var m := Manifests.Of(known.manifestRevision + 1, Map(Sync.Items(known, None).items, BlobOf()));
    SealOpens(key, UuidText(known.id), m, length, nonce);
  }

  /** The vaults a client may have read: those of the run so far. */
  ghost predicate ReadAt(d: Disk, events: seq<Event>, opts: Options, vault: Uuid, j: nat, known: Vault) {
    j <= |events| && FindVault(Run(d, events[..j], opts).vaults, vault) == Some(known)
  }

  /** Item writes without a manifest are those of a client that read none. */
  ghost predicate HonestOp(key: Key, known: Vault, op: VaultOp) {
    match op
    case Put(item, req) => req.manifest.Some? ==> HonestPut(key, known, item, req.ciphertext, req.manifest.value)
    case Delete(item, _, manifest) => manifest.Some? ==> HonestDelete(key, known, item, manifest.value)
    case WriteManifest(req) => HonestRewrite(key, known, req)
    case _ => true
  }

  ghost predicate HonestEvent(key: Key, d: Disk, events: seq<Event>, opts: Options, vault: Uuid, k: nat)
    requires k < |events|
  {
    match events[k]
    case Operation(InVault(id, op), _, _) =>
      id == vault ==> exists j: nat, known :: j <= k && ReadAt(d, events, opts, vault, j, known) && HonestOp(key, known, op)
    case _ => true
  }

  // ---- one step ---------------------------------------------------------------------------

  /** A vault changed in nothing a reader sees. */
  lemma SameView(key: Key, v: Vault, w: Vault)
    requires Agrees(key, v) && w.id == v.id
    requires w.items == v.items && w.manifest == v.manifest && w.manifestRevision == v.manifestRevision
    ensures Agrees(key, w)
  {
    assert Sync.Items(w, None).items == Sync.Items(v, None).items;
  }

  lemma StoredAgrees(key: Key, w: Vault, m: Manifest)
    requires w.manifest.Some? && Manifests.OpenManifest(key, UuidText(w.id), w.manifest.value) == Ok(m)
    requires m.counter == w.manifestRevision && ListsLive(m, w)
    ensures Agrees(key, w)
  {}

  /** Once a vault has a manifest, an item write stores the one it brings, and
      brings it on the current revision. */
  lemma PutStores(v: Vault, item: Uuid, req: PutItemRequest, now: Time, opts: Options)
    requires v.manifest.Some? && PutItem(v, item, req, now, opts).Ok?
    ensures var w := PutItem(v, item, req, now, opts).value.0;
            && w.id == v.id && req.manifest.Some? && req.manifest.value.baseRevision == v.manifestRevision
            && w.manifest == Some(req.manifest.value.ciphertext) && w.manifestRevision == v.manifestRevision + 1
  {}

  lemma DeleteStores(v: Vault, item: Uuid, moved: bool, manifest: Option<ManifestWrite>, now: Time, opts: Options)
    requires v.manifest.Some? && DeleteItem(v, item, moved, manifest, now, opts).Ok?
    ensures var w := DeleteItem(v, item, moved, manifest, now, opts).value;
            && w.id == v.id && manifest.Some? && manifest.value.baseRevision == v.manifestRevision
            && w.manifest == Some(manifest.value.ciphertext) && w.manifestRevision == v.manifestRevision + 1
  {}

  lemma PutAgrees(key: Key, known: Vault, v: Vault, item: Uuid, req: PutItemRequest, now: Time, opts: Options)
    requires Valid(v) && Evolves(known, v) && Agrees(key, v)
    requires HonestOp(key, known, Put(item, req)) && PutItem(v, item, req, now, opts).Ok?
    ensures Agrees(key, PutItem(v, item, req, now, opts).value.0)
  {
    var (w, put, created) := PutItem(v, item, req, now, opts).value;
    var m := ManifestOf(key, v).value;
    PutStores(v, item, req, now, opts);
    assert ManifestOf(key, known) == Some(m);
    var n := Manifests.Put(Manifests.Next(m, v.manifestRevision), UuidText(item), req.ciphertext);
    assert ListsLive(n, w) by {
      Sync.PutItemWrites(v, item, req, now, opts);
      PutLists(m, Sync.Live(v), v.manifestRevision, item, Sync.View(put, v.id));
    }
    StoredAgrees(key, w, n);
  }

  lemma PutLists(m: Manifest, live: Sync.Mirror, base: int, item: Uuid, view: Sync.ItemView)
    requires ListsMirror(m, live)
    ensures ListsMirror(Manifests.Put(Manifests.Next(m, base), UuidText(item), view.ciphertext), live[item := view])
  {
    var n, after := Manifests.Put(Manifests.Next(m, base), UuidText(item), view.ciphertext), live[item := view];
    forall id: Uuid
      ensures UuidText(id) in n.items <==> id in after
      ensures id in after ==> n.items[UuidText(id)] == Sha256(after[id].ciphertext)
    {
      if UuidText(id) == UuidText(item) { UuidTextInjective(id, item); }
    }
  }

  lemma DeleteAgrees(key: Key, known: Vault, v: Vault, item: Uuid, moved: bool, manifest: Option<ManifestWrite>,
                     now: Time, opts: Options)
    requires Valid(v) && Evolves(known, v) && Agrees(key, v)
    requires HonestOp(key, known, Delete(item, moved, manifest)) && DeleteItem(v, item, moved, manifest, now, opts).Ok?
    ensures Agrees(key, DeleteItem(v, item, moved, manifest, now, opts).value)
  {
    var w := DeleteItem(v, item, moved, manifest, now, opts).value;
    var m := ManifestOf(key, v).value;
    DeleteStores(v, item, moved, manifest, now, opts);
    assert ManifestOf(key, known) == Some(m);
    var n := Manifests.Remove(Manifests.Next(m, v.manifestRevision), UuidText(item));
    assert ListsLive(n, w) by {
      Sync.DeleteItemRemoves(v, item, moved, manifest, now, opts);
      DeleteLists(m, Sync.Live(v), v.manifestRevision, item);
    }
    StoredAgrees(key, w, n);
  }

  lemma DeleteLists(m: Manifest, live: Sync.Mirror, base: int, item: Uuid)
    requires ListsMirror(m, live)
    ensures ListsMirror(Manifests.Remove(Manifests.Next(m, base), UuidText(item)), live - {item})
  {
    var n, after := Manifests.Remove(Manifests.Next(m, base), UuidText(item)), live - {item};
    forall id: Uuid
      ensures UuidText(id) in n.items <==> id in after
      ensures id in after ==> n.items[UuidText(id)] == Sha256(after[id].ciphertext)
    {
      if UuidText(id) == UuidText(item) {
        UuidTextInjective(id, item);
      } else {
        assert id in after <==> id in live;
      }
    }
  }

  lemma {:induction false} DigestsOf(page: seq<Sync.ItemView>, id: Uuid)
    requires Sync.DistinctViews(page)
    ensures var items := Manifests.Digests(Map(page, BlobOf()));
            && (forall s :: s in items ==> exists x: Uuid :: UuidText(x) == s)
            && (UuidText(id) in items <==> Sync.Lookup(page, id).Some?)
            && (UuidText(id) in items ==> items[UuidText(id)] == Sha256(Sync.Lookup(page, id).value.ciphertext))
  {
    if page != [] {
      var front, last := page[..|page| - 1], page[|page| - 1];
      DigestsOf(front, id);
      assert Map(page, BlobOf())[..|page| - 1] == Map(front, BlobOf());
      LookupFront(front, last, id);
      assert page == front + [last];
      if UuidText(id) == UuidText(last.id) { UuidTextInjective(id, last.id); }
    }
  }

  lemma {:induction false} LookupFront(front: seq<Sync.ItemView>, last: Sync.ItemView, id: Uuid)
    requires Sync.DistinctViews(front + [last])
    ensures Sync.Lookup(front + [last], id) == if last.id == id then Some(last) else Sync.Lookup(front, id)
  {
    var page := front + [last];
    if front != [] {
      assert page[0].id != page[|front|].id;
      assert page[1..] == front[1..] + [last];
      forall i, j | 0 <= i < j < |page[1..]| ensures page[1..][i].id != page[1..][j].id {
        assert page[i + 1].id != page[j + 1].id;
      }
      LookupFront(front[1..], last, id);
    }
  }

  /** A manifest made of what was read at this revision agrees, whatever was
      there before: creating it, or taking note of a discrepancy. */
  lemma RewriteAgrees(key: Key, known: Vault, v: Vault, req: PutManifestRequest, now: Time)
    requires Valid(known) && Valid(v) && Evolves(known, v)
    requires HonestRewrite(key, known, req) && PutManifest(v, req, now).Ok?
    ensures Agrees(key, PutManifest(v, req, now).value)
  {
    var w := PutManifest(v, req, now).value;
    Sync.SameRevisionSameItems(known, v);
    var m := Manifests.Of(known.manifestRevision + 1, Map(Sync.Items(known, None).items, BlobOf()));
    assert ManifestOf(key, w) == Some(m);
    assert Sync.Items(w, None).items == Sync.Items(v, None).items;
    forall id: Uuid
      ensures UuidText(id) in m.items <==> id in Sync.Live(w)
      ensures id in Sync.Live(w) ==> m.items[UuidText(id)] == Sha256(Sync.Live(w)[id].ciphertext)
      ensures forall s :: s in m.items ==> exists x: Uuid :: UuidText(x) == s
    {
      Sync.SelectedOnce(known, None);
      DigestsOf(Sync.Items(known, None).items, id);
      Sync.ApplyGet(map[], Sync.Items(known, None).items, id);
      Sync.PageLookup(known, None, id);
    }
  }

  /** Everything a client or the store does to one vault keeps the agreement,
      and an honest rewrite establishes it. */
  lemma OpAgrees(key: Key, known: Vault, v: Vault, op: VaultOp, files: Files, now: Time, opts: Options)
    requires Valid(known) && Valid(v) && Evolves(known, v) && HonestOp(key, known, op)
    requires Precheck(InVault(v.id, op), opts).None? && ApplyInVault(v, op, files, now, opts).Ok?
    requires Agrees(key, v) || op.WriteManifest?
    ensures Agrees(key, ApplyInVault(v, op, files, now, opts).value.0)
  {
    if op.Put? {
      PutAgrees(key, known, v, op.item, op.put, now, opts);
    } else if op.Delete? {
      DeleteAgrees(key, known, v, op.item, op.moved, op.manifest, now, opts);
    } else if op.WriteManifest? {
      RewriteAgrees(key, known, v, op.write, now);
    } else {
      OtherOpsShowTheSame(v, op, files, now, opts);
      SameView(key, v, ApplyInVault(v, op, files, now, opts).value.0);
    }
  }

  lemma OtherOpsShowTheSame(v: Vault, op: VaultOp, files: Files, now: Time, opts: Options)
    requires v.manifest.Some? && ApplyInVault(v, op, files, now, opts).Ok?
    requires !op.Put? && !op.Delete? && !op.WriteManifest?
    ensures var w := ApplyInVault(v, op, files, now, opts).value.0;
            w.id == v.id && w.items == v.items && w.manifest == v.manifest && w.manifestRevision == v.manifestRevision
  {}

  // ---- creating the manifest with an item -----------------------------------------------------

  /** A first manifest brought by an item write, built on an empty one: nothing
      but the manifest revision is checked, so it agrees exactly when the vault
      had no other live item. That is why `put_manifest` creates it. */
  lemma FirstManifestByItemWrite(key: Key, v: Vault, item: Uuid, req: PutItemRequest, now: Time, opts: Options)
    requires Valid(v) && v.manifest.None? && req.manifest.Some?
    requires Manifests.OpenManifest(key, UuidText(v.id), req.manifest.value.ciphertext)
          == Ok(Manifests.Put(Manifests.Next(Manifests.Of(0, []), 0), UuidText(item), req.ciphertext))
    requires PutItem(v, item, req, now, opts).Ok?
    ensures Agrees(key, PutItem(v, item, req, now, opts).value.0) <==> forall other :: other in Sync.Live(v) ==> other == item
  {
    var (w, put, created) := PutItem(v, item, req, now, opts).value;
    var m := Manifests.Put(Manifests.Next(Manifests.Of(0, []), 0), UuidText(item), req.ciphertext);
    FirstManifestStored(v, item, req, now, opts);
    assert ManifestOf(key, w) == Some(m) && m.counter == w.manifestRevision;
    assert Sync.Live(w) == Sync.Live(v)[item := Sync.View(put, v.id)] && put.ciphertext == req.ciphertext by {
      Sync.PutItemWrites(v, item, req, now, opts);
    }
    OneItemLists(m, Sync.Live(v), item, Sync.View(put, v.id));
  }

  lemma FirstManifestStored(v: Vault, item: Uuid, req: PutItemRequest, now: Time, opts: Options)
    requires Valid(v) && v.manifest.None? && req.manifest.Some? && PutItem(v, item, req, now, opts).Ok?
    ensures var w := PutItem(v, item, req, now, opts).value.0;
            w.id == v.id && w.manifest == Some(req.manifest.value.ciphertext) && w.manifestRevision == 1
  {}

  lemma OneItemLists(m: Manifest, live: Sync.Mirror, item: Uuid, view: Sync.ItemView)
    requires m.items == map[UuidText(item) := Sha256(view.ciphertext)]
    ensures ListsMirror(m, live[item := view]) <==> forall other :: other in live ==> other == item
  {
    var after := live[item := view];
    forall id: Uuid ensures UuidText(id) in m.items <==> id == item {
      if UuidText(id) == UuidText(item) { UuidTextInjective(id, item); }
    }
    if ListsMirror(m, after) {
      forall other | other in live ensures other == item {
        assert other in after;
      }
    }
  }

  // ---- one event ----------------------------------------------------------------------------

  ghost predicate AgreesAt(key: Key, vaults: seq<Vault>, vault: Uuid) {
    FindVault(vaults, vault).Some? && Agrees(key, FindVault(vaults, vault).value)
  }

  /** The event writes the manifest of the vault, and succeeds. */
  predicate Rewrites(d: Disk, e: Event, opts: Options, vault: Uuid) {
    e.Operation? && e.op.InVault? && e.op.id == vault && e.op.op.WriteManifest? && Write(d, e.op, e.now, opts, e.env).1.Ok?
  }

  lemma PrunedAgrees(key: Key, vaults: seq<Vault>, now: Time, opts: Options, vault: Uuid)
    requires AgreesAt(key, vaults, vault)
    ensures AgreesAt(key, PruneAll(vaults, now, opts), vault)
  {
    var v := FindVault(vaults, vault).value;
    FindPruned(vaults, now, opts, vault);
    SameView(key, v, Prune(v, now, opts));
  }

  /** The vault among all, after an operation on it or on another. */
  lemma AppliedAgrees(key: Key, d: Disk, op: Op, now: Time, opts: Options, env: Env, vault: Uuid, known: Vault)
    requires DiskValid(d) && Precheck(op, opts).None? && Apply(d, op, now, opts, env).Ok?
    requires FindVault(d.vaults, vault).Some? && FindVault(Apply(d, op, now, opts, env).value.vaults, vault).Some?
    requires op.InVault? && op.id == vault ==>
               Valid(known) && Evolves(known, FindVault(d.vaults, vault).value) && HonestOp(key, known, op.op)
    requires AgreesAt(key, d.vaults, vault) || (op.InVault? && op.id == vault && op.op.WriteManifest?)
    ensures AgreesAt(key, Apply(d, op, now, opts, env).value.vaults, vault)
  {
    var v := FindVault(d.vaults, vault).value;
    if op.InVault? && op.id == vault {
      OwnVault(d, vault, op.op, now, opts, env);
      OpAgrees(key, known, v, op.op, d.files, now, opts);
    } else {
      OtherVaults(d, op, now, opts, env, vault);
      SameView(key, v, FindVault(Apply(d, op, now, opts, env).value.vaults, vault).value);
    }
  }

  lemma OwnVault(d: Disk, id: Uuid, op: VaultOp, now: Time, opts: Options, env: Env)
    requires DiskValid(d) && Apply(d, InVault(id, op), now, opts, env).Ok? && Precheck(InVault(id, op), opts).None?
    ensures FindVault(d.vaults, id).Some?
    ensures var v := FindVault(d.vaults, id).value;
            && Valid(v) && ApplyInVault(v, op, d.files, now, opts).Ok?
            && FindVault(Apply(d, InVault(id, op), now, opts, env).value.vaults, id)
               == Some(ApplyInVault(v, op, d.files, now, opts).value.0)
  {
    History.OwnRecords(d, id, op, now, opts, env);
  }

  /** An operation elsewhere changes at most the attachments of this vault. */
  lemma OtherVaults(d: Disk, op: Op, now: Time, opts: Options, env: Env, vault: Uuid)
    requires Apply(d, op, now, opts, env).Ok? && !(op.InVault? && op.id == vault)
    requires FindVault(d.vaults, vault).Some? && FindVault(Apply(d, op, now, opts, env).value.vaults, vault).Some?
    ensures var v := FindVault(d.vaults, vault).value;
            var w := FindVault(Apply(d, op, now, opts, env).value.vaults, vault).value;
            w == v.(attachments := w.attachments)
  {
    match op
    case CreateVault(id, name) => FindAppended(d.vaults, NewVault(id, Shared, name, now), vault);
    case DeleteVault(id) => FindFiltered(d.vaults, id, vault);
    case InVault(id, inner) => History.InVaultRecords(d, id, inner, now, opts, env, vault);
    case MoveAttachment(source, id, target, item) =>
      History.MoveRecords(d, source, id, target, item, env, vault);
  }

  lemma WriteAgrees(key: Key, d: Disk, op: Op, now: Time, opts: Options, env: Env, vault: Uuid, known: Vault)
    requires DiskValid(d) && Precheck(op, opts).None? && Apply(d, op, now, opts, env).Ok?
    requires FindVault(d.vaults, vault).Some?
    requires FindVault(PruneAll(Apply(d, op, now, opts, env).value.vaults, now, opts), vault).Some?
    requires op.InVault? && op.id == vault ==>
               Valid(known) && Evolves(known, FindVault(d.vaults, vault).value) && HonestOp(key, known, op.op)
    requires AgreesAt(key, d.vaults, vault) || (op.InVault? && op.id == vault && op.op.WriteManifest?)
    ensures AgreesAt(key, PruneAll(Apply(d, op, now, opts, env).value.vaults, now, opts), vault)
  {
    var vaults := Apply(d, op, now, opts, env).value.vaults;
    FindPruned(vaults, now, opts, vault);
    AppliedAgrees(key, d, op, now, opts, env, vault, known);
    PrunedAgrees(key, vaults, now, opts, vault);
  }

  lemma StepAgrees(key: Key, d: Disk, e: Event, opts: Options, vault: Uuid, known: Vault)
    requires DiskValid(d) && FindVault(d.vaults, vault).Some? && FindVault(Step(d, e, opts).vaults, vault).Some?
    requires e.Operation? && e.op.InVault? && e.op.id == vault ==>
               Valid(known) && Evolves(known, FindVault(d.vaults, vault).value) && HonestOp(key, known, e.op.op)
    requires AgreesAt(key, d.vaults, vault) || Rewrites(d, e, opts, vault)
    ensures AgreesAt(key, Step(d, e, opts).vaults, vault)
  {
    if e.Operation? && Write(d, e.op, e.now, opts, e.env).1.Ok? {
      WriteIsApplyThenPrune(d, e.op, e.now, opts, e.env);
      WriteAgrees(key, d, e.op, e.now, opts, e.env, vault, known);
    } else {
      History.NothingRecorded(d, e, opts, vault, 0, []);
    }
  }

  // ---- theorems -------------------------------------------------------------------------------

  lemma RunStep(d: Disk, events: seq<Event>, opts: Options, n: nat)
    requires 0 < n <= |events|
    ensures Run(d, events[..n], opts) == Step(Run(d, events[..n - 1], opts), events[n - 1], opts)
  {
    assert events[..n][..n - 1] == events[..n - 1] && events[..n][n - 1] == events[n - 1];
  }

  lemma StateAt(d: Disk, events: seq<Event>, opts: Options, vault: Uuid, k: nat)
    requires DiskValid(d) && k <= |events| && Survives(d, events, opts, vault)
    ensures DiskValid(Run(d, events[..k], opts))
    ensures var v := FindVault(Run(d, events[..k], opts).vaults, vault);
            v.Some? && Valid(v.value)
  {
    RunKeeps(d, events[..k], opts);
    assert FindVault(Run(d, events[..k], opts).vaults, vault).Some?;
  }

  lemma StepEvolvesAt(d: Disk, events: seq<Event>, opts: Options, vault: Uuid, k: nat)
    requires DiskValid(d) && k < |events| && Survives(d, events, opts, vault)
    ensures var v, w := FindVault(Run(d, events[..k], opts).vaults, vault), FindVault(Run(d, events[..k + 1], opts).vaults, vault);
            v.Some? && w.Some? && Evolves(v.value, w.value)
  {
    assert FindVault(Run(d, events[..k], opts).vaults, vault).Some?;
    assert FindVault(Run(d, events[..k + 1], opts).vaults, vault).Some?;
    RunKeeps(d, events[..k], opts);
    RunStep(d, events, opts, k + 1);
    StepEvolves(Run(d, events[..k], opts), events[k], opts, vault);
  }

  lemma {:induction false} ChainEvolves(life: seq<Vault>, j: nat, k: nat)
    requires j <= k < |life|
    requires forall i :: 0 <= i && i + 1 < |life| ==> Evolves(life[i], life[i + 1])
    ensures Evolves(life[j], life[k])
    decreases k
  {
    if j == k {
      EvolvesSelf(life[j]);
    } else {
      ChainEvolves(life, j, k - 1);
      assert Evolves(life[k - 1], life[k - 1 + 1]);
      EvolvesTransitive(life[j], life[k - 1], life[k]);
    }
  }

  /** What was read at step `j` is an earlier state of what is there at `k`. */
  lemma ReadEvolves(d: Disk, events: seq<Event>, opts: Options, vault: Uuid, j: nat, k: nat)
    requires DiskValid(d) && j <= k <= |events| && Survives(d, events, opts, vault)
    ensures var v, w := FindVault(Run(d, events[..j], opts).vaults, vault), FindVault(Run(d, events[..k], opts).vaults, vault);
            v.Some? && w.Some? && Evolves(v.value, w.value)
  {
    var life := seq(|events| + 1, i requires 0 <= i <= |events| && Survives(d, events, opts, vault) =>
                                    FindVault(Run(d, events[..i], opts).vaults, vault).value);
    forall i | 0 <= i && i + 1 < |life| ensures Evolves(life[i], life[i + 1]) {
      StepEvolvesAt(d, events, opts, vault, i);
    }
    ChainEvolves(life, j, k);
    assert FindVault(Run(d, events[..j], opts).vaults, vault).Some?;
    assert FindVault(Run(d, events[..k], opts).vaults, vault).Some?;
  }

  /** One honest step, from what the client read at some earlier one. */
  lemma HonestStepAgrees(key: Key, d: Disk, events: seq<Event>, opts: Options, vault: Uuid, k: nat)
    requires DiskValid(d) && k < |events| && Survives(d, events, opts, vault)
    requires HonestEvent(key, d, events, opts, vault, k)
    requires AgreesAt(key, Run(d, events[..k], opts).vaults, vault) || Rewrites(Run(d, events[..k], opts), events[k], opts, vault)
    ensures AgreesAt(key, Run(d, events[..k + 1], opts).vaults, vault)
  {
    var before := Run(d, events[..k], opts);
    StateAt(d, events, opts, vault, k);
    StateAt(d, events, opts, vault, k + 1);
    RunStep(d, events, opts, k + 1);
    var known := FindVault(before.vaults, vault).value;
    var e := events[k];
    if e.Operation? && e.op.InVault? && e.op.id == vault {
      var j: nat, read :| j <= k && ReadAt(d, events, opts, vault, j, read) && HonestOp(key, read, e.op.op);
      known := read;
      StateAt(d, events, opts, vault, j);
      ReadEvolves(d, events, opts, vault, j, k);
    }
    StepAgrees(key, before, e, opts, vault, known);
  }

  /** The clients are honest from step `i` to step `n`. */
  ghost predicate HonestFrom(key: Key, d: Disk, events: seq<Event>, opts: Options, vault: Uuid, i: nat, n: nat)
    requires n <= |events|
  {
    forall k :: i <= k < n ==> HonestEvent(key, d, events, opts, vault, k)
  }

  ghost predicate AgreesAfter(key: Key, d: Disk, events: seq<Event>, opts: Options, vault: Uuid, k: nat)
    requires k <= |events|
  {
    AgreesAt(key, Run(d, events[..k], opts).vaults, vault)
  }

  lemma {:induction false} Lasts(holds: seq<bool>, m: nat, n: nat)
    requires m <= n < |holds| && holds[m]
    requires forall k :: m <= k && k + 1 < |holds| && holds[k] ==> holds[k + 1]
    ensures holds[n]
    decreases n
  {
    if m < n {
      Lasts(holds, m, n - 1);
      assert holds[n - 1 + 1];
    }
  }

  lemma AgreementLasts(key: Key, d: Disk, events: seq<Event>, opts: Options, vault: Uuid, m: nat, n: nat)
    requires DiskValid(d) && m <= n <= |events| && Survives(d, events, opts, vault)
    requires HonestFrom(key, d, events, opts, vault, m, n)
    requires AgreesAfter(key, d, events, opts, vault, m)
    ensures AgreesAfter(key, d, events, opts, vault, n)
  {
    ghost var holds := seq(n + 1, k requires 0 <= k <= n => AgreesAfter(key, d, events, opts, vault, k));
    forall k | m <= k && k + 1 < |holds| && holds[k] ensures holds[k + 1] {
      assert HonestEvent(key, d, events, opts, vault, k);
      HonestStepAgrees(key, d, events, opts, vault, k);
    }
    Lasts(holds, m, n);
  }

  /** Whatever was done before, from the success of an honest manifest write
      on, and as long as clients are honest, the manifest agrees with the store
      at every step. */
  lemma AgreementOverRuns(key: Key, d: Disk, events: seq<Event>, opts: Options, vault: Uuid, i: nat, n: nat)
    requires DiskValid(d) && i < n <= |events| && Survives(d, events, opts, vault)
    requires HonestFrom(key, d, events, opts, vault, i, n)
    requires Rewrites(Run(d, events[..i], opts), events[i], opts, vault)
    ensures AgreesAfter(key, d, events, opts, vault, n)
  {
    assert HonestEvent(key, d, events, opts, vault, i);
    HonestStepAgrees(key, d, events, opts, vault, i);
    AgreementLasts(key, d, events, opts, vault, i + 1, n);
  }

  /** So no reader has a problem to report from there on, whatever earlier
      counter of the vault it remembers, from before the rewrite included. */
  lemma ReadersSeeNoProblem(key: Key, d: Disk, events: seq<Event>, opts: Options, vault: Uuid, i: nat, j: nat, n: nat)
    requires DiskValid(d) && i < n <= |events| && j <= n && Survives(d, events, opts, vault)
    requires HonestFrom(key, d, events, opts, vault, i, n)
    requires Rewrites(Run(d, events[..i], opts), events[i], opts, vault)
    ensures var v, w := FindVault(Run(d, events[..j], opts).vaults, vault), FindVault(Run(d, events[..n], opts).vaults, vault);
            v.Some? && w.Some? && VerifiesClean(key, w.value, Some(v.value.manifestRevision))
  {
    AgreementOverRuns(key, d, events, opts, vault, i, n);
    ReadEvolves(d, events, opts, vault, j, n);
    StateAt(d, events, opts, vault, n);
    var v, w := FindVault(Run(d, events[..j], opts).vaults, vault).value, FindVault(Run(d, events[..n], opts).vaults, vault).value;
    AgreementVerifies(key, w, Some(v.manifestRevision));
  }
}
