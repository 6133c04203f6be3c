/** The store as it runs: a vault read from the file is changed in place, every
    vault is pruned, and the whole is saved or dropped. Each method is proved
    to do what its function in `VaultModel` and `LocalStore` says. */
module LocalVault {
  import opened Wrappers
  import opened Seqs
  import opened Text
  import opened Crypto
  import opened VaultModel
  import opened LocalStore
  import History

  lemma OneItemMore(items: seq<ImportItem>, i: nat, keep: nat)
    requires i < |items|
    ensures |Filter(items[..i + 1], NotSkipped(keep))|
            == |Filter(items[..i], NotSkipped(keep))| + if Skipped(items[i], keep) then 0 else 1
  {
    assert items[..i + 1] == items[..i] + [items[i]];
    FilterConcat(items[..i], [items[i]], NotSkipped(keep));
  }

  /** A vault in memory, between the read and the save. */
  class StoredVault {
    const id: Uuid
    const kind: Kind
    const createdAt: Time
    var nameEnc: Blob
    var revision: int
    var updatedAt: Time
    var manifest: Option<Blob>
    var manifestRevision: int
    var items: seq<Item>
    var versions: seq<Version>
    var attachments: seq<Attachment>

    function State(): Vault
      reads this
    {
      Vault(id, kind, nameEnc, revision, createdAt, updatedAt, manifest, manifestRevision, items, versions, attachments)
    }

    constructor (v: Vault)
      ensures State() == v
    {
      id, kind, createdAt := v.id, v.kind, v.createdAt;
      nameEnc, revision, updatedAt := v.nameEnc, v.revision, v.updatedAt;
      manifest, manifestRevision := v.manifest, v.manifestRevision;
      items, versions, attachments := v.items, v.versions, v.attachments;
    }

    method Advance(now: Time) returns (rev: int)
      modifies this`revision, this`updatedAt
      ensures State() == Bump(old(State()), now) && rev == revision
    {
      revision := revision + 1;
      updatedAt := now;
      return revision;
    }

    method SetManifest(next: Option<(Blob, int)>)
      modifies this`manifest, this`manifestRevision
      ensures State() == StoreManifest(old(State()), next)
    {
      if next.Some? {
        manifest := Some(next.value.0);
        manifestRevision := next.value.1;
      }
    }

    /** Record the version, find the keep-th most recent revision, and retain
        what is at least as recent. */
    method Keep(current: Item, now: Time, keep: nat)
      modifies this`versions
      ensures versions == KeepVersion(old(versions), current, now, keep)
    {
      if keep == 0 {
        return;
      }
      if !Recorded(versions, current.id, current.revision) {
        versions := versions + [Snapshot(current, now)];
      }
      ghost var all := versions;
      History.TrimsAgree(all, current.id, keep);
      var revisions := Map(Filter(versions, OfItem(current.id)), History.RevisionOf());
      if |revisions| > keep {
        SameMembers(revisions, SortBy(revisions, History.Negated()));
        revisions := SortBy(revisions, History.Negated());
        var oldestKept := revisions[keep - 1];
        versions := Filter(versions, History.AtLeast(current.id, oldestKept));
      }
      assert |History.Descending(all, current.id)| == |Map(Filter(all, OfItem(current.id)), History.RevisionOf())| by {
        SameMembers(History.Descending(all, current.id), Map(Filter(all, OfItem(current.id)), History.RevisionOf()));
      }
    }

    method Put(item: Uuid, req: PutItemRequest, now: Time, opts: Options) returns (r: Result<(Item, bool), Error>)
      modifies this
      ensures match PutItem(old(State()), item, req, now, opts)
              case Err(e) => r == Err(e) && State() == old(State())
              case Ok((w, i, created)) => r == Ok((i, created)) && State() == w
    {
      var next := NextManifest(State(), req.manifest, opts.maxItemBytes);
      if next.Err? {
        return Err(next.error);
      }
      var current := Find(items, item);
      var live := FindLive(items, item);
      if (if live.Some? then Some(live.value.revision) else None) != req.baseRevision {
        return Err(RevisionMismatch);
      }
      if live.Some? && live.value.itemType != req.itemType {
        return Err(ItemTypeChanged);
      }
      if live.Some? {
        Keep(live.value, now, opts.itemHistory);
      }
      var rev := Advance(now);
      var created := if current.Some? then current.value.createdAt else now;
      var written := Item(item, req.itemType, rev, req.ciphertext, created, now, None);
      items := Upsert(items, written);
      SetManifest(next.value);
      return Ok((written, live.None?));
    }

    method Delete(item: Uuid, moved: bool, write: Option<ManifestWrite>, now: Time, opts: Options)
      returns (r: Result<(), Error>)
      modifies this
      ensures match DeleteItem(old(State()), item, moved, write, now, opts)
              case Err(e) => r == Err(e) && State() == old(State())
              case Ok(w) => r == Ok(()) && State() == w
    {
      var current := FindLive(items, item);
      if current.None? {
        return Err(NotFound);
      }
      var next := NextManifest(State(), write, opts.maxItemBytes);
      if next.Err? {
        return Err(next.error);
      }
      SetManifest(next.value);
      if !moved {
        Keep(current.value, now, opts.itemHistory);
      }
      var rev := Advance(now);
      items := Upsert(items, Tombstone(current.value, rev, now));
      return Ok(());
    }

    /** One item of a batch: its last versions, then its record. */
    method ImportOneItem(it: ImportItem, now: Time, keep: nat) returns (imported: bool)
      modifies this
      ensures State() == ImportOne(old(State()), it, now, keep)
      ensures imported == !Skipped(it, keep)
    {
      if it.deletedAt.Some? && keep == 0 {
        return false;
      }
      var kept := LastK(it.versions, keep);
      for i := 0 to |kept|
        invariant State() == ImportVersions(old(State()), it.id, kept[..i], now)
      {
        var rev := Advance(now);
        var ver := kept[i];
        versions := versions + [Version(it.id, rev, ver.itemType, ver.ciphertext, ver.writtenAt, ver.replacedAt)];
        assert kept[..i + 1][..i] == kept[..i];
      }
      assert kept[..|kept|] == kept;
      var rev := Advance(now);
      items := items + [Item(it.id, it.itemType, rev, it.ciphertext, it.createdAt, it.updatedAt, it.deletedAt)];
      return true;
    }

    method ImportItems(items: seq<ImportItem>, now: Time, keep: nat) returns (count: nat)
      modifies this
      ensures State() == ImportAll(old(State()), items, now, keep)
      ensures count == |Filter(items, NotSkipped(keep))|
    {
      count := 0;
      for i := 0 to |items|
        invariant State() == ImportAll(old(State()), items[..i], now, keep)
        invariant count == |Filter(items[..i], NotSkipped(keep))|
      {
        var imported := ImportOneItem(items[i], now, keep);
        if imported {
          count := count + 1;
        }
        OneItemMore(items, i, keep);
        assert items[..i + 1][..i] == items[..i];
      }
      assert items[..|items|] == items;
    }

    method ImportBatch(req: ImportRequest, now: Time, opts: Options) returns (r: Result<nat, Error>)
      modifies this
      ensures match Import(old(State()), req, now, opts)
              case Err(e) => r == Err(e) && State() == old(State())
              case Ok(w) => State() == w && r == Ok(|Filter(req.items, NotSkipped(opts.itemHistory))|)
    {
      if manifest.Some? {
        return Err(ImportClosed);
      }
      var existing := Map(Filter(req.items, Present(State())), IdOf());
      if existing != [] {
        return Err(ItemExists(existing));
      }
      var count := ImportItems(req.items, now, opts.itemHistory);
      SetManifest(req.manifest);
      return Ok(count);
    }

    method WriteManifest(req: PutManifestRequest, now: Time) returns (r: Result<int, Error>)
      modifies this
      ensures match PutManifest(old(State()), req, now)
              case Err(e) => r == Err(e) && State() == old(State())
              case Ok(w) => r == Ok(w.manifestRevision) && State() == w
    {
      if revision != req.vaultRevision {
        return Err(RevisionMismatch);
      }
      if req.baseRevision != manifestRevision {
        return Err(ManifestConflict(ManifestProto(State())));
      }
      var next := manifestRevision + 1;
      SetManifest(Some((req.ciphertext, next)));
      var rev := Advance(now);
      return Ok(next);
    }

    /** Retain the attachments `kept` chooses; the directories of the others
        are to be removed once the write is on disk. */
    method RetainAttachments(kept: Attachment -> bool) returns (removals: set<Removal>)
      modifies this`attachments
      ensures attachments == Filter(old(attachments), kept)
      ensures removals == Dropped(old(State()), State())
    {
      removals := set a | a in attachments && !kept(a) :: AttachmentDir(id, a.id);
      attachments := Filter(attachments, kept);
    }

    method PurgeItem(item: Uuid) returns (r: Result<set<Removal>, Error>)
      modifies this
      ensures match Purge(old(State()), item)
              case Err(e) => r == Err(e) && State() == old(State())
              case Ok(w) => State() == w && r == Ok(Dropped(old(State()), w))
    {
      var found := Find(items, item);
      var before := |versions|;
      if found.Some? && !found.value.Live() {
        FilterSameLength(versions, NotOf({item}));
        versions := Filter(versions, NotOf({item}));
      }
      if |versions| == before {
        return Err(NotFound);
      }
      var removals := RetainAttachments(OnOther({item}));
      return Ok(removals);
    }

    method EmptyAll() returns (removals: set<Removal>)
      modifies this
      ensures State() == EmptyTrash(old(State()))
      ensures removals == Dropped(old(State()), State())
    {
      var deleted := set i | i in items && !i.Live() :: i.id;
      versions := Filter(versions, NotOf(deleted));
      removals := RetainAttachments(OnOther(deleted));
    }

    method CreateAttachment(req: CreateAttachmentRequest, now: Time) returns (r: Result<Attachment, Error>)
      modifies this
      ensures match Announce(old(State()), req, now)
              case Err(e) => r == Err(e) && State() == old(State())
              case Ok((w, a)) => r == Ok(a) && State() == w
    {
      if FindLive(items, req.itemId).None? {
        return Err(NotFound);
      }
      if FindAttachment(attachments, req.id).Some? {
        return Err(VaultModel.AttachmentExists);
      }
      var a := Attachment(req.id, req.itemId, req.size, req.chunks, false, now);
      attachments := attachments + [a];
      return Ok(a);
    }

    /** Every chunk is on disk, and their sizes add up to what was announced. */
    method CompleteAttachment(attachment: Uuid, files: Files) returns (r: Result<Attachment, Error>)
      modifies this
      ensures match Complete(old(State()), attachment, files)
              case Err(e) => r == Err(e) && State() == old(State())
              case Ok((w, a)) => r == Ok(a) && State() == w
    {
      var found := FindAttachment(attachments, attachment);
      if found.None? {
        return Err(NotFound);
      }
      var a := found.value;
      var count, bytes := 0, 0;
      for index := 0 to if a.chunks < 0 then 0 else a.chunks
        invariant count == CountChunks(files, id, attachment, index)
        invariant bytes == SumChunks(files, id, attachment, index)
      {
        var p := ChunkPath(id, attachment, index);
        if p in files {
          count := count + 1;
          bytes := bytes + files[p];
        }
      }
      if count != a.chunks || bytes != a.size {
        return Err(AttachmentIncomplete);
      }
      var whole := a.(complete := true);
      attachments := SetAttachment(attachments, whole);
      return Ok(whole);
    }

    method PruneOld(now: Time, opts: Options) returns (removals: set<Removal>)
      modifies this
      ensures State() == Prune(old(State()), now, opts)
      ensures removals == Dropped(old(State()), State())
    {
      var v := State();
      var expired := ExpiredIds(v, now, opts);
      versions := Filter(versions, NotOf(expired));
      removals := RetainAttachments(NotStale(v, now, opts));
    }
  }

  /** The folder: the saved file and the chunks beside it. */
  class Store {
    const opts: Options
    var vaults: seq<Vault>
    var files: Files

    function Content(): Disk
      reads this
    {
      Disk(vaults, files)
    }

    constructor (personal: Uuid, nameEnc: Blob, now: Time, options: Options)
      ensures opts == options
      ensures Content() == Disk([NewVault(personal, Personal, nameEnc, now)], map[])
    {
      opts := options;
      vaults := [NewVault(personal, Personal, nameEnc, now)];
      files := map[];
    }

    /** An operation on one vault, on the vaults just read. */
    method ApplyTo(v: Vault, op: VaultOp, now: Time) returns (r: Result<(Vault, set<Removal>, Output), Error>)
      ensures match ApplyInVault(v, op, files, now, opts)
              case Err(e) => r == Err(e)
              case Ok((w, out)) => r == Ok((w, if Drops(op) then Dropped(v, w) else {}, out))
    {
      var s := new StoredVault(v);
      match op {
        case Rename(name) =>
          s.nameEnc := name;
          s.updatedAt := now;
          return Ok((s.State(), {}, VaultStored(s.State())));
        case Put(id, req) =>
          var p := s.Put(id, req, now, opts);
          if p.Err? { return Err(p.error); }
          return Ok((s.State(), {}, Written(p.value.0, p.value.1)));
        case Delete(id, moved, manifest) =>
          var p := s.Delete(id, moved, manifest, now, opts);
          if p.Err? { return Err(p.error); }
          return Ok((s.State(), {}, Done));
        case ImportItems(req) =>
          var p := s.ImportBatch(req, now, opts);
          if p.Err? { return Err(p.error); }
          return Ok((s.State(), {}, Imported(s.revision, p.value)));
        case WriteManifest(req) =>
          var p := s.WriteManifest(req, now);
          if p.Err? { return Err(p.error); }
          return Ok((s.State(), {}, ManifestStored(req.ciphertext, p.value)));
        case PurgeItem(id) =>
          var p := s.PurgeItem(id);
          if p.Err? { return Err(p.error); }
          return Ok((s.State(), p.value, Done));
        case EmptyVaultTrash =>
          var removals := s.EmptyAll();
          return Ok((s.State(), removals, Done));
        case CreateAttachment(req) =>
          var p := s.CreateAttachment(req, now);
          if p.Err? { return Err(p.error); }
          return Ok((s.State(), {}, Announced(p.value)));
        case CompleteAttachment(id) =>
          var p := s.CompleteAttachment(id, files);
          if p.Err? { return Err(p.error); }
          return Ok((s.State(), {}, Announced(p.value)));
        case DeleteAttachment(id) =>
          if FindAttachment(s.attachments, id).None? { return Err(NotFound); }
          var removals := s.RetainAttachments(NotAttachment(id));
          return Ok((s.State(), removals, Done));
      }
    }

    /** The housekeeping made at every write, on every vault. */
    method PruneEach(read: seq<Vault>, now: Time) returns (pruned: seq<Vault>, removals: set<Removal>)
      ensures pruned == PruneAll(read, now, opts)
      ensures removals == PruneRemovals(read, now, opts)
    {
      pruned, removals := [], {};
      for i := 0 to |read|
        invariant pruned == PruneAll(read[..i], now, opts)
        invariant removals == PruneRemovals(read[..i], now, opts)
      {
        var s := new StoredVault(read[i]);
        var dropped := s.PruneOld(now, opts);
        pruned := pruned + [s.State()];
        removals := removals + dropped;
        assert read[..i + 1] == read[..i] + [read[i]];
        PruneRemovalsOfOneMore(read[..i], read[i], now);
      }
      assert read[..|read|] == read;
    }

    lemma PruneRemovalsOfOneMore(read: seq<Vault>, v: Vault, now: Time)
      ensures PruneRemovals(read + [v], now, opts) == PruneRemovals(read, now, opts) + Dropped(v, Prune(v, now, opts))
    {
      forall r
        ensures r in PruneRemovals(read + [v], now, opts) <==>
                r in PruneRemovals(read, now, opts) || r in Dropped(v, Prune(v, now, opts))
      {
        assert forall x :: x in read + [v] <==> x in read || x == v;
      }
    }

    /** An attachment follows its item, and its directory with it, before
        anything is saved. */
    method MoveTo(source: Uuid, id: Uuid, target: Uuid, item: Uuid, env: Env)
      returns (r: Result<(seq<Vault>, Option<(Uuid, Uuid, Uuid)>, Output), Error>)
      modifies this`files
      ensures match Move(old(Content()), source, id, target, item, env)
              case Err(e) => r == Err(e) && files == old(files)
              case Ok(a) => r == Ok((a.vaults, a.moved, a.output)) && files == a.files && a.removals == {}
    {
      var v := FindVault(vaults, source);
      if v.None? {
        return Err(NotFound);
      }
      var found := FindAttachment(v.value.attachments, id);
      if found.None? {
        return Err(NotFound);
      }
      var t := FindVault(vaults, target);
      if t.None? || FindLive(t.value.items, item).None? {
        return Err(NotFound);
      }
      var a := found.value.(itemId := item);
      var to := new StoredVault(t.value);
      if source == target {
        to.attachments := SetAttachment(to.attachments, a);
        return Ok((SetVault(vaults, to.State()), None, Announced(a)));
      }
      if FindAttachment(to.attachments, id).Some? {
        return Err(VaultModel.AttachmentExists);
      }
      to.attachments := to.attachments + [a];
      var from := new StoredVault(v.value);
      from.attachments := Filter(from.attachments, NotAttachment(id));
      var read := SetVault(SetVault(vaults, to.State()), from.State());
      if !HasChunks(files, source, id) && !env.emptyDir {
        return Ok((read, None, Announced(a)));
      }
      if !env.renameOk || HasChunks(files, target, id) {
        return Err(LocalIo);
      }
      files := MoveDir(files, id, source, target);
      return Ok((read, Some((id, source, target)), Announced(a)));
    }

    /** What the operation makes of the vaults read, the directories to remove
        once they are saved, and the directory already moved. */
    method RunOp(op: Op, now: Time, env: Env)
      returns (r: Result<(seq<Vault>, set<Removal>, Option<(Uuid, Uuid, Uuid)>, Output), Error>)
      modifies this`files
      ensures match Apply(old(Content()), op, now, opts, env)
              case Err(e) => r == Err(e) && files == old(files)
              case Ok(a) => r == Ok((a.vaults, a.removals, a.moved, a.output)) && files == a.files
    {
      match op {
        case CreateVault(id, name) =>
          if FindVault(vaults, id).Some? {
            return Err(VaultIdTaken);
          }
          var v := NewVault(id, Shared, name, now);
          return Ok((vaults + [v], {}, None, VaultStored(v)));
        case DeleteVault(id) =>
          var v := FindVault(vaults, id);
          if v.None? {
            return Err(NotFound);
          }
          if v.value.kind == Personal {
            return Err(Forbidden);
          }
          return Ok((Filter(vaults, OtherVault(id)), {VaultDir(id)}, None, Done));
        case InVault(id, inner) =>
          var v := FindVault(vaults, id);
          if v.None? {
            return Err(NotFound);
          }
          var p := ApplyTo(v.value, inner, now);
          if p.Err? {
            return Err(p.error);
          }
          return Ok((SetVault(vaults, p.value.0), p.value.1, None, p.value.2));
        case MoveAttachment(id, attachment, target, item) =>
          var p := MoveTo(id, attachment, target, item, env);
          if p.Err? {
            return Err(p.error);
          }
          return Ok((p.value.0, {}, p.value.1, p.value.2));
      }
    }

    /** Apply, prune, save, then remove what is no longer listed; when the save
        fails, the directory moved comes back. */
    method Write(op: Op, now: Time, env: Env) returns (r: Result<Output, Error>)
      modifies this
      ensures (Content(), r) == LocalStore.Write(old(Content()), op, now, opts, env)
    {
      var bad := Precheck(op, opts);
      if bad.Some? {
        return Err(bad.value);
      }
      var p := RunOp(op, now, env);
      if p.Err? {
        return Err(p.error);
      }
      var (read, removals, moved, output) := p.value;
      var pruned, more := PruneEach(read, now);
      if !env.saveOk {
        if moved.Some? {
          files := MoveDir(files, moved.value.0, moved.value.2, moved.value.1);
        }
        return Err(LocalIo);
      }
      vaults := pruned;
      files := Cleanup(files, removals + more, env.leftover);
      return Ok(output);
    }
  }
}
