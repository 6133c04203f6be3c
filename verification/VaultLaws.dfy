/** What every operation on a vault keeps (`Valid`), and how one vault may
    change over its lifetime (`Evolves`, transitive). */
module VaultLaws {
  import opened Wrappers
  import opened Seqs
  import opened Text
  import opened VaultModel

  predicate Apart(a: Item, b: Item) { a.id != b.id && a.revision != b.revision }

  /** Two versions in stored order: distinct, and older first within an item. */
  predicate Before(a: Version, b: Version) {
    a.revision != b.revision && (a.itemId == b.itemId ==> a.revision < b.revision)
  }

  predicate Distinct(a: Attachment, b: Attachment) { a.id != b.id }

  ghost predicate ItemsValid(v: Vault) {
    && Pairwise(v.items, Apart)
    && (forall i :: i in v.items ==> 0 < i.revision <= v.revision)
  }

  /** Every version is of an item on record, and strictly older than it; no
      revision is both a version's and an item's. */
  ghost predicate VersionsValid(v: Vault) {
    && Pairwise(v.versions, Before)
    && (forall ver :: ver in v.versions ==> 0 < ver.revision <= v.revision)
    && (forall ver, i :: ver in v.versions && i in v.items ==> ver.revision != i.revision)
    && (forall ver :: ver in v.versions ==>
          Find(v.items, ver.itemId).Some? && ver.revision < Find(v.items, ver.itemId).value.revision)
  }

  ghost predicate AttachmentsValid(v: Vault) {
    && Pairwise(v.attachments, Distinct)
    && (forall a :: a in v.attachments ==> Find(v.items, a.itemId).Some?)
  }

  ghost predicate Valid(v: Vault) {
    && v.revision >= 0
    && v.manifestRevision >= 0
    && (v.manifest.Some? <==> v.manifestRevision > 0)
    && ItemsValid(v)
    && VersionsValid(v)
    && AttachmentsValid(v)
  }

  /** `w` is `v`, later in the life of the same vault: item records are never
      removed, a record that changed carries a revision `v` had not reached,
      and whatever touches an item once the vault has a manifest moves the
      manifest's revision. */
  ghost predicate Evolves(v: Vault, w: Vault) {
    && v.id == w.id
    && v.revision <= w.revision
    && v.manifestRevision <= w.manifestRevision
    && (forall id :: SameOrNewer(v, w, id))
    && (v.manifest.Some? ==> w.manifest.Some?)
    && (v.manifest.Some? && v.manifestRevision == w.manifestRevision ==> w.manifest == v.manifest && w.items == v.items)
    && (v.manifest.Some? && v.revision == w.revision ==> w.manifest == v.manifest && w.manifestRevision == v.manifestRevision)
  }

  ghost predicate SameOrNewer(v: Vault, w: Vault, id: Uuid) {
    var a, b := Find(v.items, id), Find(w.items, id);
    a == b || (b.Some? && b.value.revision > v.revision)
  }

  lemma EvolvesTransitive(u: Vault, v: Vault, w: Vault)
    requires Evolves(u, v) && Evolves(v, w)
    ensures Evolves(u, w)
  {
    forall id ensures SameOrNewer(u, w, id) {
      assert SameOrNewer(u, v, id) && SameOrNewer(v, w, id);
    }
  }

  // ---- lookups in a valid vault -------------------------------------------------

  lemma {:induction false} FindUnique(items: seq<Item>, i: Item)
    requires Pairwise(items, Apart) && i in items
    ensures Find(items, i.id) == Some(i)
  {
    if items[0].id == i.id {
      assert forall k :: 0 < k < |items| ==> Apart(items[0], items[k]);
    } else {
      FindUnique(items[1..], i);
    }
  }

  lemma {:induction false} FindUpsert(items: seq<Item>, item: Item, id: Uuid)
    ensures Find(Upsert(items, item), id) == if id == item.id then Some(item) else Find(items, id)
  {
    if items != [] && items[0].id != item.id {
      var t := Upsert(items[1..], item);
      FindUpsert(items[1..], item, id);
      assert ([items[0]] + t)[1..] == t;
    } else if items != [] {
      assert ([item] + items[1..])[1..] == items[1..];
    }
  }

  lemma {:induction false} InUpsert(items: seq<Item>, item: Item, i: Item)
    requires i in Upsert(items, item)
    ensures i == item || i in items
  {
    if items != [] && items[0].id != item.id && i != items[0] {
      InUpsert(items[1..], item, i);
    }
  }

  lemma {:induction false} UpsertApart(items: seq<Item>, item: Item)
    requires Pairwise(items, Apart)
    requires forall i :: i in items ==> i.revision != item.revision
    ensures Pairwise(Upsert(items, item), Apart)
  {
    if items != [] {
      var t := items[1..];
      if items[0].id == item.id {
        forall k | 0 <= k < |t| ensures Apart(item, t[k]) {
          assert Apart(items[0], items[k + 1]) && t[k] in items;
        }
      } else {
        UpsertApart(t, item);
        var u := Upsert(t, item);
        forall k | 0 <= k < |u| ensures Apart(items[0], u[k]) {
          InUpsert(t, item, u[k]);
          if u[k] != item {
            var j :| 0 <= j < |t| && t[j] == u[k];
            assert Apart(items[0], items[j + 1]);
          }
        }
      }
    }
  }

  /** Appending a record of a new id is an upsert. */
  lemma {:induction false} UpsertNew(items: seq<Item>, item: Item)
    requires Find(items, item.id).None?
    ensures Upsert(items, item) == items + [item]
  {
    if items != [] {
      assert items[0] in items;
      UpsertNew(items[1..], item);
    }
  }

  // ---- one write of an item -----------------------------------------------------

  /** The item records after a write: the same, but for one record at a
      revision never used before. */
  lemma UpsertEvolves(v: Vault, w: Vault, item: Item)
    requires Valid(v)
    requires w.id == v.id && w.revision == item.revision > v.revision
    requires w.items == Upsert(v.items, item)
    requires if w.manifest.Some? then w.manifestRevision > v.manifestRevision
             else v.manifest.None? && w.manifestRevision == v.manifestRevision
    ensures ItemsValid(w)
    ensures Evolves(v, w)
  {
    UpsertApart(v.items, item);
    forall i | i in w.items ensures 0 < i.revision <= w.revision {
      InUpsert(v.items, item, i);
    }
    forall id ensures SameOrNewer(v, w, id) {
      FindUpsert(v.items, item, id);
    }
  }

  /** Versions that were valid stay so when one item record is rewritten at a
      higher revision, and the records' ids do not shrink. */
  lemma VersionsAfterUpsert(v: Vault, w: Vault, item: Item)
    requires Valid(v)
    requires w.revision == item.revision > v.revision && w.items == Upsert(v.items, item)
    requires Pairwise(w.versions, Before)
    requires forall ver :: ver in w.versions ==>
                             ver in v.versions || (ver.itemId == item.id && FindLive(v.items, item.id).Some?
                                                   && ver.revision == FindLive(v.items, item.id).value.revision)
    requires w.attachments == v.attachments
    ensures VersionsValid(w) && AttachmentsValid(w)
  {
    forall ver | ver in w.versions
      ensures 0 < ver.revision <= w.revision
      ensures Find(w.items, ver.itemId).Some? && ver.revision < Find(w.items, ver.itemId).value.revision
    {
      FindUpsert(v.items, item, ver.itemId);
    }
    forall ver, i | ver in w.versions && i in w.items
      ensures ver.revision != i.revision
    {
      InUpsert(v.items, item, i);
      if ver !in v.versions && i != item {
        var live := FindLive(v.items, item.id).value;
        FindUnique(v.items, live);
        FindUnique(v.items, i);
        FindUpsert(v.items, item, i.id);
        assert ItemsValid(w) by { UpsertApart(v.items, item); InUpsertAll(v, w, item); }
        FindUnique(w.items, i);
        if i.revision == live.revision {
          SameRevisionSameItem(v.items, i, live);
        }
      }
    }
    forall a | a in w.attachments ensures Find(w.items, a.itemId).Some? {
      FindUpsert(v.items, item, a.itemId);
    }
  }

  lemma InUpsertAll(v: Vault, w: Vault, item: Item)
    requires Valid(v) && w.revision == item.revision > v.revision && w.items == Upsert(v.items, item)
    ensures forall i :: i in w.items ==> 0 < i.revision <= w.revision
  {
    forall i | i in w.items ensures 0 < i.revision <= w.revision {
      InUpsert(v.items, item, i);
    }
  }

  lemma SameRevisionSameItem(items: seq<Item>, a: Item, b: Item)
    requires Pairwise(items, Apart) && a in items && b in items && a.revision == b.revision
    ensures a == b
  {
    forall x, y | 0 <= x < y < |items| ensures items[x].revision != items[y].revision {
      assert Apart(items[x], items[y]);
    }
    var i :| 0 <= i < |items| && items[i] == a;
    var j :| 0 <= j < |items| && items[j] == b;
  }

  /** A live record that goes into the history is newer than what is there,
      and not there yet: the guard against recording it twice never acts. */
  lemma KeepVersionValid(v: Vault, current: Item, now: Time, keep: nat)
    requires Valid(v) && FindLive(v.items, current.id) == Some(current)
    ensures !Recorded(v.versions, current.id, current.revision)
    ensures Pairwise(KeepVersion(v.versions, current, now, keep), Before)
    ensures forall ver :: ver in KeepVersion(v.versions, current, now, keep) ==>
                            ver in v.versions || ver == Snapshot(current, now)
  {
    var all := v.versions + [Snapshot(current, now)];
    forall ver | ver in v.versions ensures Before(ver, Snapshot(current, now)) {
      assert current in v.items;
    }
    PairwiseAppend(v.versions, Snapshot(current, now), Before);
    FilterPairwise(all, AmongLast(all, current.id, keep), Before);
  }

  lemma PutItemKeeps(v: Vault, id: Uuid, req: PutItemRequest, now: Time, opts: Options)
    requires Valid(v) && PutItem(v, id, req, now, opts).Ok?
    ensures var w := PutItem(v, id, req, now, opts).value.0;
            Valid(w) && Evolves(v, w)
  {
    var (w, item, created) := PutItem(v, id, req, now, opts).value;
    var live := FindLive(v.items, id);
    UpsertEvolves(v, w, item);
    if live.Some? {
      KeepVersionValid(v, live.value, now, opts.itemHistory);
    }
    VersionsAfterUpsert(v, w, item);
  }

  lemma DeleteItemKeeps(v: Vault, id: Uuid, moved: bool, manifest: Option<ManifestWrite>, now: Time, opts: Options)
    requires Valid(v) && DeleteItem(v, id, moved, manifest, now, opts).Ok?
    ensures var w := DeleteItem(v, id, moved, manifest, now, opts).value;
            Valid(w) && Evolves(v, w)
  {
    var w := DeleteItem(v, id, moved, manifest, now, opts).value;
    var live := FindLive(v.items, id).value;
    var item := Tombstone(live, v.revision + 1, now);
    UpsertEvolves(v, w, item);
    KeepVersionValid(v, live, now, opts.itemHistory);
    VersionsAfterUpsert(v, w, item);
  }

  // ---- import ---------------------------------------------------------------------

  /** Importing the versions of a new item: a block of consecutive revisions
      of that item at the end of the history, nothing else. */
  lemma {:induction false} ImportVersionsAdds(v: Vault, id: Uuid, versions: seq<ImportVersion>, now: Time)
    requires Valid(v) && Find(v.items, id).None?
    ensures var w := ImportVersions(v, id, versions, now);
            && w == v.(revision := v.revision + |versions|, updatedAt := w.updatedAt, versions := w.versions)
            && |w.versions| == |v.versions| + |versions|
            && w.versions[..|v.versions|] == v.versions
            && (forall k :: 0 <= k < |versions| ==>
                  w.versions[|v.versions| + k]
                  == Version(id, v.revision + 1 + k, versions[k].itemType, versions[k].ciphertext,
                             versions[k].writtenAt, versions[k].replacedAt))
            && Pairwise(w.versions, Before)
            && (forall ver :: ver in w.versions ==>
                  ver in v.versions || (ver.itemId == id && v.revision < ver.revision <= w.revision))
  {
    if versions != [] {
      var n := |versions| - 1;
      ImportVersionsAdds(v, id, versions[..n], now);
      var u := ImportVersions(v, id, versions[..n], now);
      var last := ImportVersions(v, id, versions, now).versions[|v.versions| + n];
      PairwiseAppend(u.versions, last, Before);
    }
  }

  lemma ImportOneKeeps(v: Vault, it: ImportItem, now: Time, keep: nat)
    requires Valid(v) && v.manifest.None? && Find(v.items, it.id).None?
    ensures var w := ImportOne(v, it, now, keep);
            Valid(w) && Evolves(v, w) && w.manifest.None? && w.attachments == v.attachments
    ensures forall id :: id != it.id ==> Find(ImportOne(v, it, now, keep).items, id) == Find(v.items, id)
  {
    var w := ImportOne(v, it, now, keep);
    if !Skipped(it, keep) {
      var kept := LastK(it.versions, keep);
      ImportVersionsAdds(v, it.id, kept, now);
      var u := ImportVersions(v, it.id, kept, now);
      var item := w.items[|v.items|];
      UpsertNew(v.items, item);
      UpsertEvolves(v, w, item);
      forall id ensures Find(w.items, id) == if id == it.id then Some(item) else Find(v.items, id) {
        FindUpsert(v.items, item, id);
      }
      forall ver, i | ver in w.versions && i in w.items ensures ver.revision != i.revision {
        InUpsert(v.items, item, i);
      }
      assert AttachmentsValid(w);
    } else {
      forall id ensures SameOrNewer(v, w, id) {}
    }
  }

  /** The checks on a batch leave no id twice. */
  lemma {:induction false} BatchDistinct(items: seq<ImportItem>, known: set<Uuid>, max: nat)
    requires CheckBatch(items, known, max).None?
    ensures forall i, j :: 0 <= i < j < |items| ==> items[i].id != items[j].id
    ensures forall i :: 0 <= i < |items| ==> items[i].id !in known
  {
    if items != [] {
      BatchDistinct(items[1..], known + {items[0].id}, max);
      forall i, j | 0 <= i < j < |items| ensures items[i].id != items[j].id {
        assert items[j] == items[1..][j - 1];
        if i > 0 { assert items[i] == items[1..][i - 1]; }
      }
      forall i | 0 < i < |items| ensures items[i].id !in known {
        assert items[i] == items[1..][i - 1];
      }
    }
  }

  ghost predicate NewIds(v: Vault, items: seq<ImportItem>) {
    && (forall i, j :: 0 <= i < j < |items| ==> items[i].id != items[j].id)
    && (forall i :: 0 <= i < |items| ==> Find(v.items, items[i].id).None?)
  }

  ghost predicate Mentioned(items: seq<ImportItem>, id: Uuid) {
    exists i :: 0 <= i < |items| && items[i].id == id
  }

  lemma {:induction false} ImportAllKeeps(v: Vault, items: seq<ImportItem>, now: Time, keep: nat)
    requires Valid(v) && v.manifest.None? && NewIds(v, items)
    ensures var w := ImportAll(v, items, now, keep);
            Valid(w) && Evolves(v, w) && w.manifest.None? && w.attachments == v.attachments
    ensures forall id :: !Mentioned(items, id) ==> Find(ImportAll(v, items, now, keep).items, id) == Find(v.items, id)
  {
    if items == [] {
      forall id ensures SameOrNewer(v, v, id) {}
    } else {
      var first, last := items[..|items| - 1], items[|items| - 1];
      NewIdsPrefix(v, items);
      ImportAllKeeps(v, first, now, keep);
      var u := ImportAll(v, first, now, keep);
      ImportOneKeeps(u, last, now, keep);
      EvolvesTransitive(v, u, ImportOne(u, last, now, keep));
    }
  }

  lemma NewIdsPrefix(v: Vault, items: seq<ImportItem>)
    requires NewIds(v, items) && items != []
    ensures var first, last := items[..|items| - 1], items[|items| - 1];
            && NewIds(v, first) && Find(v.items, last.id).None? && !Mentioned(first, last.id)
            && (forall id :: !Mentioned(items, id) ==> !Mentioned(first, id) && id != last.id)
  {
    var first, last := items[..|items| - 1], items[|items| - 1];
    assert forall i :: 0 <= i < |first| ==> items[i] == first[i];
    forall id | !Mentioned(items, id) ensures !Mentioned(first, id) && id != last.id {
      assert forall i :: 0 <= i < |items| ==> items[i].id != id;
    }
  }

  lemma ImportKeeps(v: Vault, req: ImportRequest, now: Time, opts: Options)
    requires Valid(v) && CheckImport(req, opts).None? && Import(v, req, now, opts).Ok?
    ensures var w := Import(v, req, now, opts).value;
            Valid(w) && Evolves(v, w) && w.attachments == v.attachments
  {
    BatchDistinct(req.items, {}, opts.maxItemBytes);
    forall i | 0 <= i < |req.items| ensures Find(v.items, req.items[i].id).None? {
      var it := req.items[i];
      assert it in req.items && it !in Filter(req.items, Present(v));
    }
    ImportAllKeeps(v, req.items, now, opts.itemHistory);
    var u := ImportAll(v, req.items, now, opts.itemHistory);
    var w := Import(v, req, now, opts).value;
    forall id ensures SameOrNewer(v, w, id) { assert SameOrNewer(v, u, id); }
  }

  // ---- manifest, trash and retention ------------------------------------------------

  lemma PutManifestKeeps(v: Vault, req: PutManifestRequest, now: Time)
    requires Valid(v) && PutManifest(v, req, now).Ok?
    ensures var w := PutManifest(v, req, now).value;
            Valid(w) && Evolves(v, w)
  {
    var w := PutManifest(v, req, now).value;
    forall id ensures SameOrNewer(v, w, id) {}
  }

  /** Dropping versions and attachments leaves a valid vault. */
  lemma DropKeeps(v: Vault, p: Version -> bool, q: Attachment -> bool)
    requires Valid(v)
    ensures var w := v.(versions := Filter(v.versions, p), attachments := Filter(v.attachments, q));
            Valid(w) && Evolves(v, w)
  {
    FilterPairwise(v.versions, p, Before);
    FilterPairwise(v.attachments, q, Distinct);
    var w := v.(versions := Filter(v.versions, p), attachments := Filter(v.attachments, q));
    forall id ensures SameOrNewer(v, w, id) {}
    assert VersionsValid(w);
  }

  lemma PurgeKeeps(v: Vault, id: Uuid)
    requires Valid(v) && Purge(v, id).Ok?
    ensures var w := Purge(v, id).value; Valid(w) && Evolves(v, w)
  {
    DropKeeps(v, NotOf({id}), OnOther({id}));
  }

  lemma EmptyTrashKeeps(v: Vault)
    requires Valid(v)
    ensures Valid(EmptyTrash(v)) && Evolves(v, EmptyTrash(v))
  {
    DropKeeps(v, NotOf(DeletedIds(v)), OnOther(DeletedIds(v)));
  }

  lemma PruneKeeps(v: Vault, now: Time, opts: Options)
    requires Valid(v)
    ensures Valid(Prune(v, now, opts)) && Evolves(v, Prune(v, now, opts))
  {
    DropKeeps(v, NotOf(ExpiredIds(v, now, opts)), NotStale(v, now, opts));
  }
}
