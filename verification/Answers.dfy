/** What the store answers: every reason to refuse a request, in the order the
    caller learns them and in figures, what an accepted request says, and which
    files it leaves. Written over what a full read shows, apart from the code
    that does it. */
module Answers {
  import opened Wrappers
  import opened Seqs
  import opened Text
  import opened Crypto
  import opened VaultModel
  import opened VaultLaws
  import opened LocalStore
  import opened LocalStoreLaws
  import Attachments
  import Retention
  import Sync

  // ---- the request itself ---------------------------------------------------------------

  /** One to 64 letters, digits, hyphens, underscores and dots, and not the
      name under which manifests are sealed. */
  predicate GoodType(s: string) {
    && 1 <= |s| <= 64 && s != "manifest"
    && forall c :: c in s ==> 'a' <= c <= 'z' || 'A' <= c <= 'Z' || '0' <= c <= '9' || c == '-' || c == '_' || c == '.'
  }

  function ItemRefusal(itemType: string, ciphertext: Blob, max: nat): Option<Error> {
    if !GoodType(itemType) then Some(InvalidItemType)
    else if Size(ciphertext) < 42 then Some(InvalidBlob)
    else if Size(ciphertext) > max then Some(ItemTooLarge)
    else None
  }

  function ManifestRefusal(ciphertext: Blob, max: nat): Option<Error> {
    if Size(ciphertext) < 42 then Some(InvalidBlob)
    else if Size(ciphertext) > 8 * max then Some(ManifestTooLarge)
    else None
  }

  function NameRefusal(name: Blob): Option<Error> {
    if 42 <= Size(name) <= 4096 then None else Some(InvalidBlob)
  }

  /** The first version that would be refused as an item. */
  function VersionsRefusal(versions: seq<ImportVersion>, k: nat, max: nat): Option<Error>
    requires k <= |versions|
    decreases |versions| - k
  {
    if k == |versions| then None
    else if ItemRefusal(versions[k].itemType, versions[k].ciphertext, max).Some? then
      ItemRefusal(versions[k].itemType, versions[k].ciphertext, max)
    else VersionsRefusal(versions, k + 1, max)
  }

  /** A deleted item comes without content, and with a version of its type. */
  predicate Coherent(it: ImportItem) {
    it.deletedAt.Some? ==> it.versions != [] && Size(it.ciphertext) == 0 && it.versions[|it.versions| - 1].itemType == it.itemType
  }

  /** The first item refused, from the k-th on. */
  function BatchRefusal(items: seq<ImportItem>, k: nat, max: nat): Option<Error>
    requires k <= |items|
    decreases |items| - k
  {
    if k == |items| then None
    else if (exists j :: 0 <= j < k && items[j].id == items[k].id) || !Coherent(items[k]) then Some(InvalidImport)
    else if items[k].deletedAt.None? && ItemRefusal(items[k].itemType, items[k].ciphertext, max).Some? then
      ItemRefusal(items[k].itemType, items[k].ciphertext, max)
    else if VersionsRefusal(items[k].versions, 0, max).Some? then VersionsRefusal(items[k].versions, 0, max)
    else BatchRefusal(items, k + 1, max)
  }

  function ImportRefusal(req: ImportRequest, max: nat): Option<Error> {
    if |req.items| > 1000 then Some(ImportTooLarge)
    else if BatchRefusal(req.items, 0, max).Some? then BatchRefusal(req.items, 0, max)
    else if req.manifest.Some? && ManifestRefusal(req.manifest.value.0, max).Some? then
      ManifestRefusal(req.manifest.value.0, max)
    else if req.manifest.Some? && req.manifest.value.1 <= 0 then Some(InvalidManifest)
    else None
  }

  /** What is refused on sight, before the store is read. */
  function RequestRefusal(op: Op, opts: Options): Option<Error> {
    match op
    case CreateVault(_, name) => NameRefusal(name)
    case InVault(_, Rename(name)) => NameRefusal(name)
    case InVault(_, Put(_, req)) => ItemRefusal(req.itemType, req.ciphertext, opts.maxItemBytes)
    case InVault(_, ImportItems(req)) => ImportRefusal(req, opts.maxItemBytes)
    case InVault(_, WriteManifest(req)) => ManifestRefusal(req.ciphertext, opts.maxItemBytes)
    case InVault(_, CreateAttachment(req)) =>
      if 0 <= req.size <= opts.maxAttachmentBytes then
        if Attachments.Consistent(req.size, req.chunks) then None else Some(InvalidAttachment)
      else Some(AttachmentTooLarge)
    case _ => None
  }

  lemma TypeChars(s: string)
    ensures (forall c :: c in s ==> 'a' <= c <= 'z' || 'A' <= c <= 'Z' || '0' <= c <= '9' || c == '-' || c == '_' || c == '.')
            <==> forall i :: 0 <= i < |s| ==> TypeChar(s[i])
  {
    if forall i :: 0 <= i < |s| ==> TypeChar(s[i]) {
      forall c | c in s ensures TypeChar(c) {
        var i :| 0 <= i < |s| && s[i] == c;
      }
    } else {
      var i :| 0 <= i < |s| && !TypeChar(s[i]);
      assert s[i] in s;
    }
  }

  lemma ItemRefused(itemType: string, ciphertext: Blob, max: nat)
    ensures ValidateItem(itemType, ciphertext, max) == ItemRefusal(itemType, ciphertext, max)
  {
    TypeChars(itemType);
  }

  lemma {:induction false} VersionsRefused(versions: seq<ImportVersion>, k: nat, max: nat)
    requires k <= |versions|
    ensures CheckVersions(versions[k..], max) == VersionsRefusal(versions, k, max)
    decreases |versions| - k
  {
    if k < |versions| {
      ItemRefused(versions[k].itemType, versions[k].ciphertext, max);
      VersionsRefused(versions, k + 1, max);
      assert versions[k..][1..] == versions[k + 1..];
    }
  }

  lemma {:induction false} BatchRefused(items: seq<ImportItem>, k: nat, known: set<Uuid>, max: nat)
    requires k <= |items| && forall id :: id in known <==> exists j :: 0 <= j < k && items[j].id == id
    ensures CheckBatch(items[k..], known, max) == BatchRefusal(items, k, max)
    decreases |items| - k
  {
    if k < |items| {
      var it := items[k];
      ItemRefused(it.itemType, it.ciphertext, max);
      VersionsRefused(it.versions, 0, max);
      assert it.versions[0..] == it.versions;
      assert items[k..][1..] == items[k + 1..];
      BatchRefused(items, k + 1, known + {it.id}, max);
    }
  }

  /** Each check of a request, and the error it gives. */
  lemma RequestRefused(op: Op, opts: Options)
    ensures Precheck(op, opts) == RequestRefusal(op, opts)
  {
    match op
    case InVault(_, Put(_, req)) => ItemRefused(req.itemType, req.ciphertext, opts.maxItemBytes);
    case InVault(_, ImportItems(req)) =>
      BatchRefused(req.items, 0, {}, opts.maxItemBytes);
      assert req.items[0..] == req.items;
    case _ =>
  }

  // ---- the request on what the store holds --------------------------------------------------

  /** The manifest that must come with a write to an item. */
  function ManifestWriteRefusal(v: Vault, write: Option<ManifestWrite>, max: nat): Option<Error> {
    if write.None? then
      if v.manifest.Some? then Some(ManifestRequired) else None
    else if ManifestRefusal(write.value.ciphertext, max).Some? then ManifestRefusal(write.value.ciphertext, max)
    else if write.value.baseRevision != v.manifestRevision then
      Some(ManifestConflict(if v.manifest.Some? then Some((v.manifest.value, v.manifestRevision)) else None))
    else None
  }

  /** The ids of the batch the vault has a record of, deleted or not. */
  function Taken(v: Vault, items: seq<ImportItem>): seq<Uuid> {
    if items == [] then []
    else Taken(v, items[..|items| - 1])
         + if exists i :: i in v.items && i.id == items[|items| - 1].id then [items[|items| - 1].id] else []
  }

  ghost function InVaultRefusal(v: Vault, op: VaultOp, files: Files, opts: Options): Option<Error> {
    match op
    case Put(id, req) =>
      var read := Sync.Get(Sync.Live(v), id);
      if ManifestWriteRefusal(v, req.manifest, opts.maxItemBytes).Some? then ManifestWriteRefusal(v, req.manifest, opts.maxItemBytes)
      else if req.baseRevision != (if read.Some? then Some(read.value.revision) else None) then Some(RevisionMismatch)
      else if read.Some? && read.value.itemType != req.itemType then Some(ItemTypeChanged)
      else None
    case Delete(id, _, write) =>
      if id !in Sync.Live(v) then Some(NotFound) else ManifestWriteRefusal(v, write, opts.maxItemBytes)
    case ImportItems(req) =>
      if v.manifest.Some? then Some(ImportClosed)
      else if Taken(v, req.items) != [] then Some(ItemExists(Taken(v, req.items)))
      else None
    case WriteManifest(req) =>
      if v.revision != req.vaultRevision then Some(RevisionMismatch)
      else if v.manifestRevision != req.baseRevision then
        Some(ManifestConflict(if v.manifest.Some? then Some((v.manifest.value, v.manifestRevision)) else None))
      else None
    case PurgeItem(id) =>
      if (exists i :: i in v.items && i.id == id && i.deletedAt.Some?) && VersionsOf(v, id) != [] then None else Some(NotFound)
    case CreateAttachment(req) =>
      if req.itemId !in Sync.Live(v) then Some(NotFound)
      else if exists a :: a in v.attachments && a.id == req.id then Some(VaultModel.AttachmentExists)
      else None
    case CompleteAttachment(id) =>
      var a := FindAttachment(v.attachments, id);
      if a.None? then Some(NotFound)
      else if a.value.chunks >= 0 && (forall i :: 0 <= i < a.value.chunks ==> ChunkPath(v.id, id, i) in files)
              && SumChunks(files, v.id, id, a.value.chunks) == a.value.size then None
      else Some(AttachmentIncomplete)
    case DeleteAttachment(id) => if exists a :: a in v.attachments && a.id == id then None else Some(NotFound)
    case Rename(_) => None
    case EmptyVaultTrash => None
  }

  /** What following an item to `target` may run into. */
  ghost function MoveRefusal(d: Disk, source: Uuid, id: Uuid, target: Uuid, item: Uuid, env: Env): Option<Error> {
    var v, t := FindVault(d.vaults, source), FindVault(d.vaults, target);
    if v.None? || FindAttachment(v.value.attachments, id).None? then Some(NotFound)
    else if t.None? || item !in Sync.Live(t.value) then Some(NotFound)
    else if source == target then None
    else if FindAttachment(t.value.attachments, id).Some? then Some(VaultModel.AttachmentExists)
    else if (HasChunks(d.files, source, id) || env.emptyDir) && (HasChunks(d.files, target, id) || !env.renameOk) then Some(LocalIo)
    else None
  }

  ghost function StoreRefusal(d: Disk, op: Op, opts: Options, env: Env): Option<Error> {
    match op
    case CreateVault(id, _) => if exists v :: v in d.vaults && v.id == id then Some(VaultIdTaken) else None
    case DeleteVault(id) =>
      var v := FindVault(d.vaults, id);
      if v.None? then Some(NotFound) else if v.value.kind == Personal then Some(Forbidden) else None
    case InVault(id, inner) =>
      var v := FindVault(d.vaults, id);
      if v.None? then Some(NotFound) else InVaultRefusal(v.value, inner, d.files, opts)
    case MoveAttachment(id, attachment, target, item) => MoveRefusal(d, id, attachment, target, item, env)
  }

  lemma ManifestWriteRefused(v: Vault, write: Option<ManifestWrite>, max: nat)
    ensures ManifestWriteRefusal(v, write, max).None? <==> NextManifest(v, write, max).Ok?
    ensures ManifestWriteRefusal(v, write, max).Some? ==> NextManifest(v, write, max) == Err(ManifestWriteRefusal(v, write, max).value)
  {}

  lemma {:induction false} TakenInOrder(v: Vault, items: seq<ImportItem>)
    ensures Taken(v, items) == Map(Filter(items, Present(v)), IdOf())
  {
    if items != [] {
      var front, last := items[..|items| - 1], items[|items| - 1];
      assert items == front + [last];
      TakenInOrder(v, front);
      FilterConcat(front, [last], Present(v));
      TakenLast(v, last);
      MapConcat(Filter(front, Present(v)), Filter([last], Present(v)), IdOf());
    }
  }

  lemma TakenLast(v: Vault, last: ImportItem)
    ensures Map(Filter([last], Present(v)), IdOf()) == if exists i :: i in v.items && i.id == last.id then [last.id] else []
  {
    assert [last][1..] == [];
  }

  /** `r` is refused as `e` says. */
  predicate RefusedAs<T>(r: Result<T, Error>, e: Option<Error>) { if e.Some? then r == Err(e.value) else r.Ok? }

  lemma PutRefused(v: Vault, id: Uuid, req: PutItemRequest, files: Files, now: Time, opts: Options)
    requires Valid(v)
    ensures RefusedAs(ApplyInVault(v, Put(id, req), files, now, opts), InVaultRefusal(v, Put(id, req), files, opts))
  {
    ManifestWriteRefused(v, req.manifest, opts.maxItemBytes);
    Sync.LiveGet(v, id);
  }

  lemma DeleteRefused(v: Vault, id: Uuid, moved: bool, write: Option<ManifestWrite>, files: Files, now: Time, opts: Options)
    requires Valid(v)
    ensures RefusedAs(ApplyInVault(v, Delete(id, moved, write), files, now, opts), InVaultRefusal(v, Delete(id, moved, write), files, opts))
  {
    ManifestWriteRefused(v, write, opts.maxItemBytes);
    Sync.LiveGet(v, id);
  }

  lemma PurgeRefused(v: Vault, id: Uuid, files: Files, now: Time, opts: Options)
    requires Valid(v)
    ensures RefusedAs(ApplyInVault(v, PurgeItem(id), files, now, opts), InVaultRefusal(v, PurgeItem(id), files, opts))
  {
    Retention.PurgeAccepted(v, id);
    forall i | i in v.items && i.id == id ensures Find(v.items, id) == Some(i) {
      FindUnique(v.items, i);
    }
  }

  lemma AnnounceRefused(v: Vault, req: CreateAttachmentRequest, files: Files, now: Time, opts: Options)
    requires Valid(v)
    ensures RefusedAs(ApplyInVault(v, CreateAttachment(req), files, now, opts), InVaultRefusal(v, CreateAttachment(req), files, opts))
  {
    Sync.LiveGet(v, req.itemId);
  }

  lemma CompleteRefused(v: Vault, id: Uuid, files: Files, now: Time, opts: Options)
    ensures RefusedAs(ApplyInVault(v, CompleteAttachment(id), files, now, opts), InVaultRefusal(v, CompleteAttachment(id), files, opts))
  {
    var a := FindAttachment(v.attachments, id);
    if a.Some? && a.value.chunks >= 0 {
      CountMeansAll(files, v.id, id, a.value.chunks);
    }
  }

  lemma ImportRefused(v: Vault, req: ImportRequest, files: Files, now: Time, opts: Options)
    ensures RefusedAs(ApplyInVault(v, ImportItems(req), files, now, opts), InVaultRefusal(v, ImportItems(req), files, opts))
  {
    TakenInOrder(v, req.items);
  }

  lemma RewriteRefused(v: Vault, req: PutManifestRequest, files: Files, now: Time, opts: Options)
    ensures RefusedAs(ApplyInVault(v, WriteManifest(req), files, now, opts), InVaultRefusal(v, WriteManifest(req), files, opts))
  {}

  lemma InVaultRefused(v: Vault, op: VaultOp, files: Files, now: Time, opts: Options)
    requires Valid(v)
    ensures RefusedAs(ApplyInVault(v, op, files, now, opts), InVaultRefusal(v, op, files, opts))
  {
    match op
    case Put(id, req) => PutRefused(v, id, req, files, now, opts);
    case Delete(id, moved, write) => DeleteRefused(v, id, moved, write, files, now, opts);
    case ImportItems(req) => ImportRefused(v, req, files, now, opts);
    case WriteManifest(req) => RewriteRefused(v, req, files, now, opts);
    case PurgeItem(id) => PurgeRefused(v, id, files, now, opts);
    case CreateAttachment(req) => AnnounceRefused(v, req, files, now, opts);
    case CompleteAttachment(id) => CompleteRefused(v, id, files, now, opts);
    case _ =>
  }

  lemma LiveFound(v: Vault, item: Uuid)
    requires Valid(v)
    ensures FindLive(v.items, item).Some? <==> item in Sync.Live(v)
  {
    Sync.LiveGet(v, item);
  }

  lemma MoveFinds(d: Disk, source: Uuid, id: Uuid, target: Uuid, item: Uuid, env: Env)
    requires MoveRefusal(d, source, id, target, item, env) == Some(NotFound)
    requires FindVault(d.vaults, target).Some? ==>
               (FindLive(FindVault(d.vaults, target).value.items, item).Some? <==> item in Sync.Live(FindVault(d.vaults, target).value))
    ensures Move(d, source, id, target, item, env) == Err(NotFound)
  {}

  lemma MoveGoes(d: Disk, v: Vault, id: Uuid, t: Vault, item: Uuid, env: Env)
    requires FindVault(d.vaults, v.id) == Some(v) && FindVault(d.vaults, t.id) == Some(t)
    requires FindAttachment(v.attachments, id).Some? && FindLive(t.items, item).Some?
    ensures RefusedAs(Move(d, v.id, id, t.id, item, env),
                      if v.id == t.id then None
                      else if FindAttachment(t.attachments, id).Some? then Some(VaultModel.AttachmentExists)
                      else if (HasChunks(d.files, v.id, id) || env.emptyDir) && (HasChunks(d.files, t.id, id) || !env.renameOk) then Some(LocalIo)
                      else None)
  {}

  lemma MoveRefused(d: Disk, source: Uuid, id: Uuid, target: Uuid, item: Uuid, env: Env)
    requires DiskValid(d)
    ensures RefusedAs(Move(d, source, id, target, item, env), MoveRefusal(d, source, id, target, item, env))
  {
    var v, t := FindVault(d.vaults, source), FindVault(d.vaults, target);
    if t.Some? {
      LiveFound(t.value, item);
    }
    if MoveRefusal(d, source, id, target, item, env) == Some(NotFound) {
      MoveFinds(d, source, id, target, item, env);
    } else {
      MoveGoes(d, v.value, id, t.value, item, env);
    }
  }

  lemma StoreRefused(d: Disk, op: Op, now: Time, opts: Options, env: Env)
    requires DiskValid(d)
    ensures RefusedAs(Apply(d, op, now, opts, env), StoreRefusal(d, op, opts, env))
  {
    match op
    case InVault(id, inner) =>
      if FindVault(d.vaults, id).Some? {
        InVaultRefused(FindVault(d.vaults, id).value, inner, d.files, now, opts);
      }
    case MoveAttachment(id, attachment, target, item) => MoveRefused(d, id, attachment, target, item, env);
    case _ =>
  }

  /** A write is refused for the first of these reasons, and for no other; an
      accepted one fails only when the file is not saved. */
  lemma RefusedExactly(d: Disk, op: Op, now: Time, opts: Options, env: Env)
    requires DiskValid(d)
    ensures RefusedAs(Write(d, op, now, opts, env).1,
                      if RequestRefusal(op, opts).Some? then RequestRefusal(op, opts)
                      else if StoreRefusal(d, op, opts, env).Some? then StoreRefusal(d, op, opts, env)
                      else if !env.saveOk then Some(LocalIo)
                      else None)
  {
    RequestRefused(op, opts);
    StoreRefused(d, op, now, opts, env);
  }

  // ---- what an accepted request says ----------------------------------------------------------

  /** The answer to an operation on vault `v`, and what `v` became. */
  ghost predicate Told(v: Vault, op: VaultOp, w: Vault, out: Output, now: Time) {
    match op
    case Rename(name) => out == VaultStored(w) && w == v.(nameEnc := name, updatedAt := now)
    case Put(id, _) => out.Written? && Find(w.items, id) == Some(out.item) && (out.created <==> id !in Sync.Live(v))
    case ImportItems(_) => out.Imported? && out.revision == w.revision && |w.items| == |v.items| + out.count
    case WriteManifest(req) =>
      && out == ManifestStored(req.ciphertext, w.manifestRevision)
      && w == v.(manifest := Some(req.ciphertext), manifestRevision := v.manifestRevision + 1,
                 revision := v.revision + 1, updatedAt := now)
    case CreateAttachment(req) =>
      && out == Announced(Attachment(req.id, req.itemId, req.size, req.chunks, false, now))
      && FindAttachment(w.attachments, req.id) == Some(out.attachment)
    case CompleteAttachment(id) =>
      out.Announced? && out.attachment.complete && FindAttachment(w.attachments, id) == Some(out.attachment)
    case DeleteAttachment(id) => out == Done && w == v.(attachments := w.attachments) && FindAttachment(w.attachments, id).None?
    case _ => out == Done
  }

  lemma {:induction false} ImportCounts(v: Vault, items: seq<ImportItem>, now: Time, keep: nat)
    ensures |ImportAll(v, items, now, keep).items| == |v.items| + |Filter(items, NotSkipped(keep))|
  {
    if items != [] {
      var front, last := items[..|items| - 1], items[|items| - 1];
      assert items == front + [last];
      ImportCounts(v, front, now, keep);
      FilterConcat(front, [last], NotSkipped(keep));
      ImportOneCounts(ImportAll(v, front, now, keep), last, now, keep);
    }
  }

  lemma ImportOneCounts(v: Vault, it: ImportItem, now: Time, keep: nat)
    ensures |ImportOne(v, it, now, keep).items| == |v.items| + |Filter([it], NotSkipped(keep))|
  {
    assert [it][1..] == [];
    ImportVersionsItems(v, it.id, LastK(it.versions, keep), now);
  }

  lemma {:induction false} ImportVersionsItems(v: Vault, id: Uuid, versions: seq<ImportVersion>, now: Time)
    ensures ImportVersions(v, id, versions, now).items == v.items
  {
    if versions != [] {
      ImportVersionsItems(v, id, versions[..|versions| - 1], now);
    }
  }

  lemma PutTold(v: Vault, id: Uuid, req: PutItemRequest, now: Time, opts: Options)
    requires Valid(v) && PutItem(v, id, req, now, opts).Ok?
    ensures var (w, item, created) := PutItem(v, id, req, now, opts).value;
            Find(w.items, id) == Some(item) && (created <==> id !in Sync.Live(v))
  {
    var (w, item, created) := PutItem(v, id, req, now, opts).value;
    Sync.PutItemShape(v, id, req, now, opts);
    FindUpsert(v.items, item, id);
    LiveFound(v, id);
  }

  lemma InVaultTold(v: Vault, op: VaultOp, files: Files, now: Time, opts: Options)
    requires Valid(v) && ApplyInVault(v, op, files, now, opts).Ok?
    ensures var (w, out) := ApplyInVault(v, op, files, now, opts).value; Told(v, op, w, out, now)
  {
    match op
    case Put(id, req) => PutTold(v, id, req, now, opts);
    case ImportItems(req) => ImportCounts(v, req.items, now, opts.itemHistory);
    case CreateAttachment(req) => FindAppendedAttachment(v.attachments, Announce(v, req, now).value.1, req.id);
    case CompleteAttachment(id) => FindSetAttachment(v.attachments, Complete(v, id, files).value.1, id);
    case _ =>
  }

  lemma WriteShape(d: Disk, op: Op, now: Time, opts: Options, env: Env)
    requires Write(d, op, now, opts, env).1.Ok?
    ensures Precheck(op, opts).None? && Apply(d, op, now, opts, env).Ok?
    ensures var (d', r), a := Write(d, op, now, opts, env), Apply(d, op, now, opts, env).value;
            && r == Ok(a.output) && d'.vaults == PruneAll(a.vaults, now, opts)
            && d'.files == Cleanup(a.files, a.removals + PruneRemovals(a.vaults, now, opts), env.leftover)
  {}

  /** The vault of that id after a write that made `w` of it. */
  function Kept(w: Option<Vault>, now: Time, opts: Options): Option<Vault> {
    match w case None => None case Some(v) => Some(Prune(v, now, opts))
  }

  lemma VaultAfter(d: Disk, op: Op, now: Time, opts: Options, env: Env, id: Uuid)
    requires Write(d, op, now, opts, env).1.Ok?
    ensures Apply(d, op, now, opts, env).Ok?
    ensures FindVault(Write(d, op, now, opts, env).0.vaults, id) == Kept(FindVault(Apply(d, op, now, opts, env).value.vaults, id), now, opts)
  {
    WriteShape(d, op, now, opts, env);
    FindPruned(Apply(d, op, now, opts, env).value.vaults, now, opts, id);
  }

  /** A new vault is shared, empty, at revision 0. */
  lemma CreateVaultTold(d: Disk, id: Uuid, name: Blob, now: Time, opts: Options, env: Env, other: Uuid)
    requires Write(d, CreateVault(id, name), now, opts, env).1.Ok?
    ensures var (d', r) := Write(d, CreateVault(id, name), now, opts, env);
            var made := Vault(id, Shared, name, 0, now, now, None, 0, [], [], []);
            && r == Ok(VaultStored(made)) && FindVault(d'.vaults, id) == Some(made)
            && (other != id ==> FindVault(d'.vaults, other) == Kept(FindVault(d.vaults, other), now, opts))
  {
    WriteShape(d, CreateVault(id, name), now, opts, env);
    VaultAfter(d, CreateVault(id, name), now, opts, env, id);
    VaultAfter(d, CreateVault(id, name), now, opts, env, other);
    FindAppended(d.vaults, NewVault(id, Shared, name, now), id);
    FindAppended(d.vaults, NewVault(id, Shared, name, now), other);
  }

  lemma DeleteVaultApplied(d: Disk, id: Uuid, now: Time, opts: Options, env: Env)
    requires Apply(d, DeleteVault(id), now, opts, env).Ok?
    ensures var a := Apply(d, DeleteVault(id), now, opts, env).value;
            && a.vaults == Filter(d.vaults, OtherVault(id)) && a.files == d.files && a.removals == {VaultDir(id)} && a.output == Done
  {}

  lemma DeleteVaultTold(d: Disk, id: Uuid, now: Time, opts: Options, env: Env, other: Uuid)
    requires Write(d, DeleteVault(id), now, opts, env).1.Ok?
    ensures var (d', r) := Write(d, DeleteVault(id), now, opts, env);
            && r == Ok(Done)
            && FindVault(d'.vaults, other) == if other == id then None else Kept(FindVault(d.vaults, other), now, opts)
  {
    WriteShape(d, DeleteVault(id), now, opts, env);
    DeleteVaultApplied(d, id, now, opts, env);
    VaultAfter(d, DeleteVault(id), now, opts, env, other);
    FindFiltered(d.vaults, id, other);
  }

  lemma InVaultApplied(d: Disk, id: Uuid, op: VaultOp, now: Time, opts: Options, env: Env)
    requires Write(d, InVault(id, op), now, opts, env).1.Ok?
    ensures FindVault(d.vaults, id).Some? && ApplyInVault(FindVault(d.vaults, id).value, op, d.files, now, opts).Ok?
    ensures var (w, out) := ApplyInVault(FindVault(d.vaults, id).value, op, d.files, now, opts).value;
            && Apply(d, InVault(id, op), now, opts, env).value.vaults == SetVault(d.vaults, w)
            && Write(d, InVault(id, op), now, opts, env).1 == Ok(out) && Precheck(InVault(id, op), opts).None?
  {
    WriteShape(d, InVault(id, op), now, opts, env);
    ApplyInVaultShape(d, id, op, now, opts, env);
  }

  lemma InVaultAfter(d: Disk, id: Uuid, op: VaultOp, now: Time, opts: Options, env: Env, x: Uuid)
    requires Write(d, InVault(id, op), now, opts, env).1.Ok?
    requires FindVault(d.vaults, id).Some? && ApplyInVault(FindVault(d.vaults, id).value, op, d.files, now, opts).Ok?
    requires ApplyInVault(FindVault(d.vaults, id).value, op, d.files, now, opts).value.0.id == id
    ensures FindVault(Write(d, InVault(id, op), now, opts, env).0.vaults, x)
            == Kept(if x == id then Some(ApplyInVault(FindVault(d.vaults, id).value, op, d.files, now, opts).value.0)
                    else FindVault(d.vaults, x), now, opts)
  {
    InVaultApplied(d, id, op, now, opts, env);
    VaultAfter(d, InVault(id, op), now, opts, env, x);
    FindSetVault(d.vaults, ApplyInVault(FindVault(d.vaults, id).value, op, d.files, now, opts).value.0, x);
  }

  lemma FoundValid(d: Disk, id: Uuid)
    requires DiskValid(d) && FindVault(d.vaults, id).Some?
    ensures Valid(FindVault(d.vaults, id).value) && AttachmentsOnDisk(FindVault(d.vaults, id).value, d.files)
  {}

  ghost predicate VaultTold(v: Vault, op: VaultOp, after: Option<Vault>, out: Output, now: Time, opts: Options) {
    exists w :: Told(v, op, w, out, now) && after == Some(Prune(w, now, opts))
  }

  /** An operation on one vault answers for what it made of that vault; the
      others are left as they were, but for the pruning. */
  lemma InVaultWriteTold(d: Disk, id: Uuid, op: VaultOp, now: Time, opts: Options, env: Env, other: Uuid)
    requires DiskValid(d) && Write(d, InVault(id, op), now, opts, env).1.Ok?
    ensures FindVault(d.vaults, id).Some?
    ensures var (d', r) := Write(d, InVault(id, op), now, opts, env);
            && VaultTold(FindVault(d.vaults, id).value, op, FindVault(d'.vaults, id), r.value, now, opts)
            && (other != id ==> FindVault(d'.vaults, other) == Kept(FindVault(d.vaults, other), now, opts))
  {
    InVaultApplied(d, id, op, now, opts, env);
    FoundValid(d, id);
    InVaultTold(FindVault(d.vaults, id).value, op, d.files, now, opts);
    InVaultKeeps(FindVault(d.vaults, id).value, op, d.files, now, opts);
    InVaultAfter(d, id, op, now, opts, env, id);
    InVaultAfter(d, id, op, now, opts, env, other);
  }

  // ---- the files ----------------------------------------------------------------------------

  predicate Listed(vaults: seq<Vault>, p: ChunkPath) {
    var v := FindVault(vaults, p.vault);
    v.Some? && FindAttachment(v.value.attachments, p.attachment).Some?
  }

  lemma DroppedExactly(v: Vault, w: Vault, id: Uuid)
    requires Pairwise(v.attachments, Distinct) && w.id == v.id && forall a :: a in w.attachments ==> a in v.attachments
    ensures AttachmentDir(v.id, id) in Dropped(v, w) <==>
            FindAttachment(v.attachments, id).Some? && FindAttachment(w.attachments, id).None?
  {
    DroppedIds(v, w);
    if FindAttachment(w.attachments, id).Some? {
      assert AttachmentDir(w.id, FindAttachment(w.attachments, id).value.id) !in Dropped(v, w);
    }
  }

  lemma PruneGivesUp(vaults: seq<Vault>, now: Time, opts: Options, p: ChunkPath)
    requires Pairwise(vaults, VaultsApart) && forall v :: v in vaults ==> Valid(v)
    ensures AttachmentDir(p.vault, p.attachment) in PruneRemovals(vaults, now, opts) <==>
            Listed(vaults, p) && !Listed(PruneAll(vaults, now, opts), p)
    ensures VaultDir(p.vault) !in PruneRemovals(vaults, now, opts)
    ensures Listed(PruneAll(vaults, now, opts), p) ==> Listed(vaults, p)
  {
    FindPruned(vaults, now, opts, p.vault);
    var found := FindVault(vaults, p.vault);
    if found.Some? {
      DroppedExactly(found.value, Prune(found.value, now, opts), p.attachment);
    }
    forall v | v in vaults && AttachmentDir(p.vault, p.attachment) in Dropped(v, Prune(v, now, opts)) ensures found == Some(v) {
      FindVaultUnique(vaults, v);
    }
  }

  /** An attachment just announced is not pruned by the same write. */
  lemma NewIsNotStale(v: Vault, w: Vault, made: Attachment, now: Time, opts: Options)
    requires w.attachments == v.attachments + [made] && made.createdAt == now
    ensures FindAttachment(Prune(w, now, opts).attachments, made.id).Some?
  {
    assert made in w.attachments && !Stale(w, made, now, opts);
    assert made in Prune(w, now, opts).attachments;
  }

  lemma DropGivesUp(v: Vault, op: VaultOp, files: Files, now: Time, opts: Options, x: Uuid)
    requires Valid(v) && Drops(op) && ApplyInVault(v, op, files, now, opts).Ok?
    ensures var w := ApplyInVault(v, op, files, now, opts).value.0;
            && w.id == v.id
            && (AttachmentDir(v.id, x) in Dropped(v, w) <==> FindAttachment(v.attachments, x).Some? && FindAttachment(w.attachments, x).None?)
            && (FindAttachment(w.attachments, x).Some? ==> FindAttachment(v.attachments, x).Some?)
  {
    DropOpKeeps(v, op, files, now, opts);
    DroppedExactly(v, ApplyInVault(v, op, files, now, opts).value.0, x);
  }

  lemma AnnounceGivesUpNothing(v: Vault, req: CreateAttachmentRequest, now: Time, opts: Options, x: Uuid)
    requires Announce(v, req, now).Ok?
    ensures var w := Announce(v, req, now).value.0;
            && w.id == v.id
            && FindAttachment(w.attachments, x) == (if x == req.id then Some(Announce(v, req, now).value.1) else FindAttachment(v.attachments, x))
            && FindAttachment(Prune(w, now, opts).attachments, req.id).Some?
  {
    var (w, made) := Announce(v, req, now).value;
    FindAppendedAttachment(v.attachments, made, x);
    NewIsNotStale(v, w, made, now, opts);
  }

  /** The attachments there stay, and new ones are not pruned at once. */
  ghost predicate Stays(v: Vault, w: Vault, now: Time, opts: Options, x: Uuid) {
    && w.id == v.id
    && (FindAttachment(v.attachments, x).Some? ==> FindAttachment(w.attachments, x).Some?)
    && (FindAttachment(w.attachments, x).Some? && FindAttachment(v.attachments, x).None? ==>
          FindAttachment(Prune(w, now, opts).attachments, x).Some?)
  }

  lemma RecordsStay(v: Vault, op: VaultOp, files: Files, now: Time, opts: Options, x: Uuid)
    requires Valid(v) && OnRecords(op) && Precheck(InVault(v.id, op), opts).None? && ApplyInVault(v, op, files, now, opts).Ok?
    ensures Stays(v, ApplyInVault(v, op, files, now, opts).value.0, now, opts, x)
  {
    RecordOpKeeps(v, op, files, now, opts);
  }

  lemma AnnouncedStay(v: Vault, req: CreateAttachmentRequest, now: Time, opts: Options, x: Uuid)
    requires Announce(v, req, now).Ok?
    ensures Stays(v, Announce(v, req, now).value.0, now, opts, x)
  {
    AnnounceGivesUpNothing(v, req, now, opts, x);
  }

  lemma CompletedStay(v: Vault, id: Uuid, files: Files, now: Time, opts: Options, x: Uuid)
    requires Complete(v, id, files).Ok?
    ensures Stays(v, Complete(v, id, files).value.0, now, opts, x)
  {
    FindSetAttachment(v.attachments, Complete(v, id, files).value.1, x);
  }

  lemma AttachmentShape(v: Vault, op: VaultOp, files: Files, now: Time, opts: Options)
    requires (op.CreateAttachment? || op.CompleteAttachment?) && ApplyInVault(v, op, files, now, opts).Ok?
    ensures op.CreateAttachment? ==>
              Announce(v, op.create, now).Ok? && ApplyInVault(v, op, files, now, opts).value.0 == Announce(v, op.create, now).value.0
    ensures op.CompleteAttachment? ==>
              Complete(v, op.attachment, files).Ok? && ApplyInVault(v, op, files, now, opts).value.0 == Complete(v, op.attachment, files).value.0
  {}

  lemma OthersGiveUpNothing(v: Vault, op: VaultOp, files: Files, now: Time, opts: Options, x: Uuid)
    requires Valid(v) && !Drops(op) && Precheck(InVault(v.id, op), opts).None? && ApplyInVault(v, op, files, now, opts).Ok?
    ensures Stays(v, ApplyInVault(v, op, files, now, opts).value.0, now, opts, x)
  {
    if OnRecords(op) {
      RecordsStay(v, op, files, now, opts, x);
    } else if op.CreateAttachment? {
      AttachmentShape(v, op, files, now, opts);
      AnnouncedStay(v, op.create, now, opts, x);
    } else {
      AttachmentShape(v, op, files, now, opts);
      CompletedStay(v, op.attachment, files, now, opts, x);
    }
  }

  /** What a write gives up besides what it prunes. */
  ghost predicate GivesUp(d: Disk, op: Op, a: Applied, now: Time, opts: Options, p: ChunkPath) {
    && a.files == d.files
    && (VaultDir(p.vault) in a.removals <==> op == DeleteVault(p.vault))
    && (AttachmentDir(p.vault, p.attachment) in a.removals ==> Listed(d.vaults, p) && !Listed(a.vaults, p))
    && (Listed(d.vaults, p) && !Listed(a.vaults, p) ==> AttachmentDir(p.vault, p.attachment) in a.removals || op == DeleteVault(p.vault))
    && (Listed(a.vaults, p) && !Listed(d.vaults, p) ==> Listed(PruneAll(a.vaults, now, opts), p))
  }

  lemma InVaultGivesUp(d: Disk, id: Uuid, op: VaultOp, now: Time, opts: Options, env: Env, p: ChunkPath)
    requires DiskValid(d) && Precheck(InVault(id, op), opts).None? && Apply(d, InVault(id, op), now, opts, env).Ok?
    ensures GivesUp(d, InVault(id, op), Apply(d, InVault(id, op), now, opts, env).value, now, opts, p)
  {
    ApplyInVaultShape(d, id, op, now, opts, env);
    FoundValid(d, id);
    var v := FindVault(d.vaults, id).value;
    var w := ApplyInVault(v, op, d.files, now, opts).value.0;
    if Drops(op) {
      DropGivesUp(v, op, d.files, now, opts, p.attachment);
    } else {
      OthersGiveUpNothing(v, op, d.files, now, opts, p.attachment);
    }
    ListedInSet(d.vaults, v, w, now, opts, p);
    DroppedHere(v, w, p);
  }

  lemma ListedInSet(vaults: seq<Vault>, v: Vault, w: Vault, now: Time, opts: Options, p: ChunkPath)
    requires FindVault(vaults, v.id) == Some(v) && w.id == v.id
    ensures p.vault != v.id ==> (Listed(SetVault(vaults, w), p) <==> Listed(vaults, p))
    ensures p.vault == v.id ==> (Listed(vaults, p) <==> FindAttachment(v.attachments, p.attachment).Some?)
    ensures p.vault == v.id ==> (Listed(SetVault(vaults, w), p) <==> FindAttachment(w.attachments, p.attachment).Some?)
    ensures p.vault == v.id ==> (Listed(PruneAll(SetVault(vaults, w), now, opts), p)
                                 <==> FindAttachment(Prune(w, now, opts).attachments, p.attachment).Some?)
  {
    FindSetVault(vaults, w, p.vault);
    FindPruned(SetVault(vaults, w), now, opts, p.vault);
  }

  lemma DroppedHere(v: Vault, w: Vault, p: ChunkPath)
    ensures VaultDir(p.vault) !in Dropped(v, w) && (p.vault != v.id ==> AttachmentDir(p.vault, p.attachment) !in Dropped(v, w))
  {}

  lemma StoreGivesUp(d: Disk, op: Op, now: Time, opts: Options, env: Env, p: ChunkPath)
    requires DiskValid(d) && (op.CreateVault? || op.DeleteVault?) && Apply(d, op, now, opts, env).Ok?
    ensures GivesUp(d, op, Apply(d, op, now, opts, env).value, now, opts, p)
  {
    if op.CreateVault? {
      FindAppended(d.vaults, NewVault(op.id, Shared, op.nameEnc, now), p.vault);
    } else {
      FindFiltered(d.vaults, op.id, p.vault);
    }
  }

  lemma OpGivesUp(d: Disk, op: Op, now: Time, opts: Options, env: Env, p: ChunkPath)
    requires DiskValid(d) && !op.MoveAttachment? && Precheck(op, opts).None? && Apply(d, op, now, opts, env).Ok?
    ensures GivesUp(d, op, Apply(d, op, now, opts, env).value, now, opts, p)
  {
    if op.InVault? {
      InVaultGivesUp(d, op.id, op.op, now, opts, env, p);
    } else {
      StoreGivesUp(d, op, now, opts, env, p);
    }
  }

  /** The files after a write that moves no attachment: those before, less those
      of a vault it deletes and of the attachments it no longer lists. */
  lemma FilesAfter(d: Disk, op: Op, now: Time, opts: Options, env: Env, p: ChunkPath)
    requires DiskValid(d) && !op.MoveAttachment? && Write(d, op, now, opts, env).1.Ok?
    ensures var d' := Write(d, op, now, opts, env).0;
            && (p in d'.files <==>
                  p in d.files && (p in env.leftover
                                   || !(op == DeleteVault(p.vault) || (Listed(d.vaults, p) && !Listed(d'.vaults, p)))))
            && (p in d'.files ==> d'.files[p] == d.files[p])
  {
    WriteShape(d, op, now, opts, env);
    OperationHolds(d, op, now, opts, env);
    var a := Apply(d, op, now, opts, env).value;
    OpGivesUp(d, op, now, opts, env, p);
    PruneGivesUp(a.vaults, now, opts, p);
  }

  /** A chunk is taken exactly for an attachment announced and not complete, in
      a place it has, and of the size of a sealed chunk. */
  lemma ChunkTakenExactly(d: Disk, vault: Uuid, id: Uuid, index: int, size: nat, env: Env)
    ensures var (d', r) := PutChunk(d, vault, id, index, size, env);
            var v := FindVault(d.vaults, vault);
            var a := if v.Some? then FindAttachment(v.value.attachments, id) else None;
            && RefusedAs(r, if a.None? then Some(NotFound)
                            else if a.value.complete then Some(VaultModel.AttachmentComplete)
                            else if !(0 <= index < a.value.chunks && 41 <= size <= 1048617) then Some(InvalidAttachment)
                            else if !env.saveOk then Some(LocalIo)
                            else None)
            && d'.vaults == d.vaults
            && d'.files == if r.Ok? then d.files[ChunkPath(vault, id, index) := size] else d.files
  {}

  // ---- an attachment that follows its item ----------------------------------------------------

  function RecordOf(vaults: seq<Vault>, vault: Uuid, id: Uuid): Option<Attachment> {
    var v := FindVault(vaults, vault);
    if v.None? then None else FindAttachment(v.value.attachments, id)
  }

  lemma {:induction false} FindOtherAttachment(attachments: seq<Attachment>, gone: Uuid, id: Uuid)
    ensures FindAttachment(Filter(attachments, NotAttachment(gone)), id) == if id == gone then None else FindAttachment(attachments, id)
  {
    if attachments != [] {
      FindOtherAttachment(attachments[1..], gone, id);
      var t := Filter(attachments[1..], NotAttachment(gone));
      assert ([attachments[0]] + t)[1..] == t;
    }
  }

  lemma FollowsWithin(d: Disk, v: Vault, id: Uuid, item: Uuid, env: Env, vault: Uuid, x: Uuid)
    requires FindVault(d.vaults, v.id) == Some(v) && Move(d, v.id, id, v.id, item, env).Ok?
    ensures FindAttachment(v.attachments, id).Some?
    ensures var a, made := Move(d, v.id, id, v.id, item, env).value, FindAttachment(v.attachments, id).value.(itemId := item);
            && a.output == Announced(made)
            && RecordOf(a.vaults, vault, x) == if (vault, x) == (v.id, id) then Some(made) else RecordOf(d.vaults, vault, x)
  {
    var made := FindAttachment(v.attachments, id).value.(itemId := item);
    FindSetVault(d.vaults, v.(attachments := SetAttachment(v.attachments, made)), vault);
    FindSetAttachment(v.attachments, made, x);
  }

  lemma FollowsAcross(d: Disk, v: Vault, id: Uuid, t: Vault, item: Uuid, env: Env, vault: Uuid, x: Uuid)
    requires v.id != t.id && FindVault(d.vaults, v.id) == Some(v) && FindVault(d.vaults, t.id) == Some(t)
    requires Move(d, v.id, id, t.id, item, env).Ok?
    ensures FindAttachment(v.attachments, id).Some?
    ensures var a, made := Move(d, v.id, id, t.id, item, env).value, FindAttachment(v.attachments, id).value.(itemId := item);
            && a.output == Announced(made)
            && RecordOf(a.vaults, vault, x)
               == if (vault, x) == (t.id, id) then Some(made) else if (vault, x) == (v.id, id) then None
                  else RecordOf(d.vaults, vault, x)
  {
    MoveShape(d, v, t, id, item, env);
    var (u, w) := Moved(v, t, id, item);
    FindSetVault(d.vaults, w, vault);
    FindSetVault(SetVault(d.vaults, w), u, vault);
    FindOtherAttachment(v.attachments, id, x);
    FindAppendedAttachment(t.attachments, FindAttachment(v.attachments, id).value.(itemId := item), x);
  }

  /** An attachment follows its item: its record, under the new item and
      otherwise the same, is in the vault it follows it to and no longer in the
      one it comes from; no other record moves. */
  lemma AttachmentFollows(d: Disk, source: Uuid, id: Uuid, target: Uuid, item: Uuid, env: Env, vault: Uuid, x: Uuid)
    requires Move(d, source, id, target, item, env).Ok?
    ensures var a, found := Move(d, source, id, target, item, env).value, RecordOf(d.vaults, source, id);
            && found.Some?
            && var made := Attachment(id, item, found.value.size, found.value.chunks, found.value.complete, found.value.createdAt);
            && a.output == Announced(made)
            && RecordOf(a.vaults, vault, x)
               == if (vault, x) == (target, id) then Some(made) else if (vault, x) == (source, id) then None
                  else RecordOf(d.vaults, vault, x)
  {
    var v, t := FindVault(d.vaults, source).value, FindVault(d.vaults, target).value;
    if source == target {
      FollowsWithin(d, v, id, item, env, vault, x);
    } else {
      FollowsAcross(d, v, id, t, item, env, vault, x);
    }
  }
}
