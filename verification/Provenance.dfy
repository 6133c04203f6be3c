/** Where the content of a vault comes from: whatever is live or kept in a
    history is what a client sent, under the revision it was given. */
module Provenance {
  import opened Wrappers
  import opened Seqs
  import opened Text
  import opened Crypto
  import opened VaultModel
  import opened VaultLaws
  import opened LocalStore
  import opened LocalStoreLaws
  import History
  import Sync

  // ---- what replaces an item keeps it ----------------------------------------------------

  lemma LiveIs(v: Vault, id: Uuid)
    requires Valid(v) && id in Sync.Live(v)
    ensures var i, read := FindLive(v.items, id), Sync.Live(v)[id];
            && i.Some? && i.value.id == id
            && (i.value.revision, i.value.itemType, i.value.ciphertext, i.value.updatedAt)
               == (read.revision, read.itemType, read.ciphertext, read.updatedAt)
  {
    Sync.LiveGet(v, id);
  }

  lemma EndsWith(h: seq<Version>, ver: Version, keep: nat)
    requires keep > 0
    ensures LastK(h + [ver], keep) != [] && LastK(h + [ver], keep)[|LastK(h + [ver], keep)| - 1] == ver
  {}

  /** After a write over a live item, the last version of its history is what a
      full read gave before it; the earlier ones are as they were, the oldest
      gone when there are too many. */
  lemma PutKeepsWhatWasRead(v: Vault, id: Uuid, req: PutItemRequest, now: Time, opts: Options)
    requires Valid(v) && opts.itemHistory > 0 && id in Sync.Live(v) && PutItem(v, id, req, now, opts).Ok?
    ensures var read, h := Sync.Live(v)[id], VersionsOf(PutItem(v, id, req, now, opts).value.0, id);
            var ver := Version(id, read.revision, read.itemType, read.ciphertext, read.updatedAt, now);
            h == LastK(VersionsOf(v, id) + [ver], opts.itemHistory) && h != [] && h[|h| - 1] == ver
  {
    LiveIs(v, id);
    var live := FindLive(v.items, id).value;
    History.PutShape(v, id, req, now, opts);
    History.RecordingIsEnqueue(v, live, now, opts.itemHistory);
    EndsWith(VersionsOf(v, id), Version(id, live.revision, live.itemType, live.ciphertext, live.updatedAt, now), opts.itemHistory);
  }

  /** So does a deletion, but for an item moved to another vault. */
  lemma DeleteKeepsWhatWasRead(v: Vault, id: Uuid, moved: bool, manifest: Option<ManifestWrite>, now: Time, opts: Options)
    requires Valid(v) && opts.itemHistory > 0 && id in Sync.Live(v) && DeleteItem(v, id, moved, manifest, now, opts).Ok?
    ensures var read, h := Sync.Live(v)[id], VersionsOf(DeleteItem(v, id, moved, manifest, now, opts).value, id);
            var ver := Version(id, read.revision, read.itemType, read.ciphertext, read.updatedAt, now);
            if moved then h == VersionsOf(v, id)
            else h == LastK(VersionsOf(v, id) + [ver], opts.itemHistory) && h != [] && h[|h| - 1] == ver
  {
    LiveIs(v, id);
    var live := FindLive(v.items, id).value;
    History.DeleteShape(v, id, moved, manifest, now, opts);
    History.RecordingIsEnqueue(v, live, now, opts.itemHistory);
    EndsWith(VersionsOf(v, id), Version(id, live.revision, live.itemType, live.ciphertext, live.updatedAt, now), opts.itemHistory);
  }

  // ---- contents ----------------------------------------------------------------------------

  datatype Content = Content(id: Uuid, revision: int, itemType: string, ciphertext: Blob)

  ghost predicate IsLive(items: seq<Item>, c: Content) {
    exists i :: i in items && i.Live() && Content(i.id, i.revision, i.itemType, i.ciphertext) == c
  }

  ghost predicate IsKept(versions: seq<Version>, c: Content) {
    exists ver :: ver in versions && Content(ver.itemId, ver.revision, ver.itemType, ver.ciphertext) == c
  }

  /** Live in the vault, or kept in its history. */
  ghost predicate InVault(v: Vault, c: Content) { IsLive(v.items, c) || IsKept(v.versions, c) }

  /** This item of a batch brings it, as its content or in its history. */
  ghost predicate Brings(it: ImportItem, c: Content) {
    && it.id == c.id
    && ((it.deletedAt.None? && it.itemType == c.itemType && it.ciphertext == c.ciphertext)
        || exists ver :: ver in it.versions && ver.itemType == c.itemType && ver.ciphertext == c.ciphertext)
  }

  /** The operation carries this content for this item. */
  ghost predicate Carries(op: VaultOp, c: Content) {
    match op
    case Put(id, req) => id == c.id && req.itemType == c.itemType && req.ciphertext == c.ciphertext
    case ImportItems(req) => exists it :: it in req.items && Brings(it, c)
    case _ => false
  }

  /** Carried by the operation that took the vault from `v` to `w`, and given a
      revision of that step; a write gives the last one. */
  ghost predicate Came(op: VaultOp, v: Vault, w: Vault, c: Content) {
    Carries(op, c) && v.revision < c.revision <= w.revision && (op.Put? ==> c.revision == w.revision)
  }

  // ---- one operation -----------------------------------------------------------------------

  lemma {:induction false} UpsertMember(items: seq<Item>, put: Item, i: Item)
    requires i in Upsert(items, put)
    ensures i == put || i in items
  {
    if items != [] && items[0].id != put.id && i != items[0] {
      assert i in Upsert(items[1..], put);
      UpsertMember(items[1..], put, i);
    }
  }

  lemma KeptMember(versions: seq<Version>, live: Item, now: Time, keep: nat, c: Content)
    requires IsKept(KeepVersion(versions, live, now, keep), c) && live.Live()
    ensures IsKept(versions, c) || c == Content(live.id, live.revision, live.itemType, live.ciphertext)
  {
    var ver :| ver in KeepVersion(versions, live, now, keep)
               && Content(ver.itemId, ver.revision, ver.itemType, ver.ciphertext) == c;
    assert ver in versions || ver in versions + [Snapshot(live, now)];
  }

  lemma PutContents(v: Vault, id: Uuid, req: PutItemRequest, now: Time, opts: Options, c: Content)
    requires PutItem(v, id, req, now, opts).Ok? && InVault(PutItem(v, id, req, now, opts).value.0, c)
    ensures InVault(v, c) || Came(Put(id, req), v, PutItem(v, id, req, now, opts).value.0, c)
  {
    var (w, put, created) := PutItem(v, id, req, now, opts).value;
    Sync.PutItemShape(v, id, req, now, opts);
    History.PutShape(v, id, req, now, opts);
    if IsLive(w.items, c) {
      var i :| i in w.items && i.Live() && Content(i.id, i.revision, i.itemType, i.ciphertext) == c;
      UpsertMember(v.items, put, i);
    } else {
      ReplacedContents(v, w.versions, FindLive(v.items, id), now, opts.itemHistory, c);
    }
  }

  lemma ReplacedContents(v: Vault, versions: seq<Version>, live: Option<Item>, now: Time, keep: nat, c: Content)
    requires IsKept(versions, c) && (live.Some? ==> live.value in v.items && live.value.Live())
    requires versions == if live.Some? then KeepVersion(v.versions, live.value, now, keep) else v.versions
    ensures InVault(v, c)
  {
    if live.Some? {
      KeptMember(v.versions, live.value, now, keep, c);
    }
  }

  lemma DeleteContents(v: Vault, id: Uuid, moved: bool, manifest: Option<ManifestWrite>, now: Time, opts: Options, c: Content)
    requires DeleteItem(v, id, moved, manifest, now, opts).Ok? && InVault(DeleteItem(v, id, moved, manifest, now, opts).value, c)
    ensures InVault(v, c)
  {
    var w := DeleteItem(v, id, moved, manifest, now, opts).value;
    History.DeleteShape(v, id, moved, manifest, now, opts);
    var live := FindLive(v.items, id).value;
    if IsLive(w.items, c) {
      var i :| i in w.items && i.Live() && Content(i.id, i.revision, i.itemType, i.ciphertext) == c;
      UpsertMember(v.items, Tombstone(live, v.revision + 1, now), i);
    } else if !moved {
      ReplacedContents(v, w.versions, Some(live), now, opts.itemHistory, c);
    }
  }

  lemma {:induction false} ImportedVersion(v: Vault, id: Uuid, versions: seq<ImportVersion>, now: Time, ver: Version)
    requires ver in ImportVersions(v, id, versions, now).versions
    ensures var w := ImportVersions(v, id, versions, now);
            ver in v.versions
            || (ver.itemId == id && v.revision < ver.revision <= w.revision
                && exists k :: 0 <= k < |versions| && (versions[k].itemType, versions[k].ciphertext) == (ver.itemType, ver.ciphertext))
  {
    if versions != [] {
      var n := |versions| - 1;
      Sync.ImportVersionsRevision(v, id, versions[..n], now);
      if ver in ImportVersions(v, id, versions[..n], now).versions {
        ImportedVersion(v, id, versions[..n], now, ver);
        if ver !in v.versions {
          var k :| 0 <= k < n && (versions[..n][k].itemType, versions[..n][k].ciphertext) == (ver.itemType, ver.ciphertext);
          assert versions[k] == versions[..n][k];
        }
      }
    }
  }

  lemma {:induction false} ImportVersionsItems(v: Vault, id: Uuid, versions: seq<ImportVersion>, now: Time)
    ensures ImportVersions(v, id, versions, now).items == v.items
  {
    if versions != [] {
      ImportVersionsItems(v, id, versions[..|versions| - 1], now);
    }
  }

  lemma ImportOneContents(v: Vault, it: ImportItem, now: Time, keep: nat, c: Content)
    requires InVault(ImportOne(v, it, now, keep), c)
    ensures InVault(v, c) || (Brings(it, c) && v.revision < c.revision <= ImportOne(v, it, now, keep).revision)
  {
    if !Skipped(it, keep) {
      var kept := LastK(it.versions, keep);
      var u, w := ImportVersions(v, it.id, kept, now), ImportOne(v, it, now, keep);
      Sync.ImportVersionsRevision(v, it.id, kept, now);
      ImportVersionsItems(v, it.id, kept, now);
      if IsKept(w.versions, c) {
        var ver :| ver in u.versions && Content(ver.itemId, ver.revision, ver.itemType, ver.ciphertext) == c;
        ImportedVersion(v, it.id, kept, now, ver);
        if ver !in v.versions {
          var k :| 0 <= k < |kept| && (kept[k].itemType, kept[k].ciphertext) == (ver.itemType, ver.ciphertext);
          assert kept[k] in it.versions;
        }
      } else {
        var i :| i in w.items && i.Live() && Content(i.id, i.revision, i.itemType, i.ciphertext) == c;
        assert w.items[..|v.items|] == v.items;
        assert i in v.items || i == w.items[|v.items|];
      }
    }
  }

  lemma {:induction false} ImportAllContents(v: Vault, items: seq<ImportItem>, now: Time, keep: nat, c: Content)
    requires InVault(ImportAll(v, items, now, keep), c)
    ensures InVault(v, c)
            || (v.revision < c.revision <= ImportAll(v, items, now, keep).revision && exists it :: it in items && Brings(it, c))
  {
    if items != [] {
      var front, last := items[..|items| - 1], items[|items| - 1];
      var u := ImportAll(v, front, now, keep);
      ImportOneContents(u, last, now, keep, c);
      Sync.ImportAllRevision(v, front, now, keep);
      Sync.ImportAllRevision(u, [last], now, keep);
      OneIsAll(u, last, now, keep);
      assert last in items;
      if InVault(u, c) {
        ImportAllContents(v, front, now, keep, c);
      }
    }
  }

  lemma OneIsAll(u: Vault, it: ImportItem, now: Time, keep: nat)
    ensures ImportAll(u, [it], now, keep) == ImportOne(u, it, now, keep)
  {
    assert [it][..0] == [];
  }

  lemma OpContents(v: Vault, op: VaultOp, files: Files, now: Time, opts: Options, c: Content)
    requires ApplyInVault(v, op, files, now, opts).Ok? && InVault(ApplyInVault(v, op, files, now, opts).value.0, c)
    ensures InVault(v, c) || Came(op, v, ApplyInVault(v, op, files, now, opts).value.0, c)
  {
    var w := ApplyInVault(v, op, files, now, opts).value.0;
    if op.Put? {
      PutContents(v, op.item, op.put, now, opts, c);
    } else if op.Delete? {
      DeleteContents(v, op.item, op.moved, op.manifest, now, opts, c);
    } else if op.ImportItems? {
      var u := ImportAll(v, op.batch.items, now, opts.itemHistory);
      History.StoredRecords(u, op.batch.manifest);
      assert InVault(u, c);
      ImportAllContents(v, op.batch.items, now, opts.itemHistory, c);
    } else {
      FewerContents(v, op, files, now, opts, c);
    }
  }

  lemma FewerContents(v: Vault, op: VaultOp, files: Files, now: Time, opts: Options, c: Content)
    requires ApplyInVault(v, op, files, now, opts).Ok? && !op.Put? && !op.Delete? && !op.ImportItems?
    requires InVault(ApplyInVault(v, op, files, now, opts).value.0, c)
    ensures InVault(v, c)
  {
    var w := ApplyInVault(v, op, files, now, opts).value.0;
    if !op.PurgeItem? && !op.EmptyVaultTrash? {
      History.OthersKeepRecords(v, op, files, now, opts);
    }
    assert w.items == v.items && forall ver :: ver in w.versions ==> ver in v.versions;
  }

  // ---- one event ---------------------------------------------------------------------------

  /** The event is an operation on this vault that brings this content. */
  ghost predicate CameBy(e: Event, vault: Uuid, v: Option<Vault>, w: Option<Vault>, c: Content) {
    e.Operation? && e.op.InVault? && e.op.id == vault && v.Some? && w.Some? && Came(e.op.op, v.value, w.value, c)
  }

  lemma PrunedContents(w: Vault, now: Time, opts: Options, c: Content)
    requires InVault(Prune(w, now, opts), c)
    ensures InVault(w, c) && Prune(w, now, opts).revision == w.revision
  {}

  lemma AppliedContents(d: Disk, op: Op, now: Time, opts: Options, env: Env, vault: Uuid, c: Content)
    requires DiskValid(d) && Precheck(op, opts).None? && Apply(d, op, now, opts, env).Ok?
    requires var w := FindVault(Apply(d, op, now, opts, env).value.vaults, vault); w.Some? && InVault(w.value, c)
    ensures var v, w := FindVault(d.vaults, vault), FindVault(Apply(d, op, now, opts, env).value.vaults, vault);
            (v.Some? && InVault(v.value, c)) || CameBy(Operation(op, now, env), vault, v, w, c)
  {
    if op.InVault? && op.id == vault {
      History.OwnRecords(d, vault, op.op, now, opts, env);
      OpContents(FindVault(d.vaults, vault).value, op.op, d.files, now, opts, c);
    } else {
      History.OtherRecords(d, op, now, opts, env, vault);
    }
  }

  lemma EventContents(d: Disk, e: Event, opts: Options, vault: Uuid, c: Content)
    requires DiskValid(d)
    requires var w := FindVault(Step(d, e, opts).vaults, vault); w.Some? && InVault(w.value, c)
    ensures var v, w := FindVault(d.vaults, vault), FindVault(Step(d, e, opts).vaults, vault);
            (v.Some? && InVault(v.value, c)) || CameBy(e, vault, v, w, c)
  {
    if e.Operation? && Write(d, e.op, e.now, opts, e.env).1.Ok? {
      WriteIsApplyThenPrune(d, e.op, e.now, opts, e.env);
      var vaults := Apply(d, e.op, e.now, opts, e.env).value.vaults;
      FindPruned(vaults, e.now, opts, vault);
      PrunedContents(FindVault(vaults, vault).value, e.now, opts, c);
      AppliedContents(d, e.op, e.now, opts, e.env, vault, c);
    } else {
      History.NothingRecorded(d, e, opts, vault, 0, []);
    }
  }

  // ---- over runs -----------------------------------------------------------------------------

  /** An earlier event of the run brought this content, under this revision. */
  ghost predicate Sent(d: Disk, events: seq<Event>, opts: Options, vault: Uuid, c: Content) {
    exists k: nat :: SentAt(d, events, opts, vault, c, k)
  }

  ghost predicate SentAt(d: Disk, events: seq<Event>, opts: Options, vault: Uuid, c: Content, k: nat) {
    k < |events| && CameBy(events[k], vault, FindVault(Run(d, events[..k], opts).vaults, vault),
                           FindVault(Run(d, events[..k + 1], opts).vaults, vault), c)
  }

  lemma SentAtFront(d: Disk, events: seq<Event>, opts: Options, vault: Uuid, c: Content, k: nat)
    requires events != [] && SentAt(d, events[..|events| - 1], opts, vault, c, k)
    ensures SentAt(d, events, opts, vault, c, k)
  {
    var front := events[..|events| - 1];
    assert front[..k] == events[..k] && front[..k + 1] == events[..k + 1] && front[k] == events[k];
  }

  lemma SentBefore(d: Disk, events: seq<Event>, opts: Options, vault: Uuid, c: Content)
    requires events != [] && Sent(d, events[..|events| - 1], opts, vault, c)
    ensures Sent(d, events, opts, vault, c)
  {
    var k: nat :| SentAt(d, events[..|events| - 1], opts, vault, c, k);
    SentAtFront(d, events, opts, vault, c, k);
  }

  lemma SentNow(d: Disk, events: seq<Event>, opts: Options, vault: Uuid, c: Content)
    requires events != []
    requires CameBy(events[|events| - 1], vault, FindVault(Run(d, events[..|events| - 1], opts).vaults, vault),
                    FindVault(Run(d, events, opts).vaults, vault), c)
    ensures Sent(d, events, opts, vault, c)
  {
    assert events[..|events| - 1 + 1] == events;
    assert SentAt(d, events, opts, vault, c, |events| - 1);
  }

  lemma {:induction false} RunContents(d: Disk, events: seq<Event>, opts: Options, vault: Uuid, c: Content)
    requires DiskValid(d) && (FindVault(d.vaults, vault).Some? ==> !InVault(FindVault(d.vaults, vault).value, c))
    requires var w := FindVault(Run(d, events, opts).vaults, vault); w.Some? && InVault(w.value, c)
    ensures Sent(d, events, opts, vault, c)
  {
    if events != [] {
      var n := |events| - 1;
      var u := Run(d, events[..n], opts);
      RunKeeps(d, events[..n], opts);
      EventContents(u, events[n], opts, vault, c);
      if FindVault(u.vaults, vault).Some? && InVault(FindVault(u.vaults, vault).value, c) {
        RunContents(d, events[..n], opts, vault, c);
        SentBefore(d, events, opts, vault, c);
      } else {
        SentNow(d, events, opts, vault, c);
      }
    }
  }

  /** In every reachable state, whatever is live in a vault or kept in its
      history holds the type and the ciphertext that an accepted write sent at
      that revision, or that an import brought. */
  lemma EveryContentWasSent(personal: Uuid, nameEnc: Blob, created: Time, events: seq<Event>, opts: Options, vault: Uuid, c: Content)
    requires var w := FindVault(Run(Created(personal, nameEnc, created), events, opts).vaults, vault);
             w.Some? && InVault(w.value, c)
    ensures Sent(Created(personal, nameEnc, created), events, opts, vault, c)
  {
    CreatedIsEmpty(personal, nameEnc, created, vault, c);
    RunContents(Created(personal, nameEnc, created), events, opts, vault, c);
  }

  lemma CreatedIsEmpty(personal: Uuid, nameEnc: Blob, created: Time, vault: Uuid, c: Content)
    ensures DiskValid(Created(personal, nameEnc, created))
    ensures var found := FindVault(Created(personal, nameEnc, created).vaults, vault); found.Some? ==> !InVault(found.value, c)
  {
    assert Created(personal, nameEnc, created).vaults[1..] == [];
  }
}
