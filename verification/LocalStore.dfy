/** The local store: the file that holds every vault, the attachment chunks
    beside it, and the write that is all or nothing. */
module LocalStore {
  import opened Wrappers
  import opened Seqs
  import opened Text
  import opened Crypto
  import opened VaultModel
  import Attachments

  datatype ChunkPath = ChunkPath(vault: Uuid, attachment: Uuid, index: int)

  /** Chunk files, with their sizes. */
  type Files = map<ChunkPath, nat>

  datatype Disk = Disk(vaults: seq<Vault>, files: Files)

  datatype VaultOp =
    | Rename(nameEnc: Blob)
    | Put(item: Uuid, put: PutItemRequest)
    | Delete(item: Uuid, moved: bool, manifest: Option<ManifestWrite>)
    | ImportItems(batch: ImportRequest)
    | WriteManifest(write: PutManifestRequest)
    | PurgeItem(item: Uuid)
    | EmptyVaultTrash
    | CreateAttachment(create: CreateAttachmentRequest)
    | CompleteAttachment(attachment: Uuid)
    | DeleteAttachment(attachment: Uuid)

  datatype Op =
    | CreateVault(id: Uuid, nameEnc: Blob)
    | DeleteVault(id: Uuid)
    | InVault(id: Uuid, op: VaultOp)
    | MoveAttachment(id: Uuid, attachment: Uuid, target: Uuid, item: Uuid)

  datatype Output =
    | Done
    | Written(item: Item, created: bool)
    | Imported(revision: int, count: nat)
    | ManifestStored(blob: Blob, revision: int)
    | Announced(attachment: Attachment)
    | VaultStored(vault: Vault)

  /** What the file system does during one operation: whether a save and a
      rename succeed, whether an attachment without chunks has a directory, and
      which chunk files survive a failed clean-up. */
  datatype Env = Env(saveOk: bool, renameOk: bool, emptyDir: bool, leftover: set<ChunkPath>)

  /** A directory to remove once the write is on disk. */
  datatype Removal = AttachmentDir(vault: Uuid, attachment: Uuid) | VaultDir(vault: Uuid)

  datatype Applied = Applied(
    vaults: seq<Vault>, files: Files, removals: set<Removal>, moved: Option<(Uuid, Uuid, Uuid)>, output: Output)

  // ---- vaults --------------------------------------------------------------------

  function FindVault(vaults: seq<Vault>, id: Uuid): (r: Option<Vault>)
    ensures r.Some? ==> r.value in vaults && r.value.id == id
    ensures r.None? <==> forall v :: v in vaults ==> v.id != id
  {
    if vaults == [] then None
    else if vaults[0].id == id then Some(vaults[0])
    else FindVault(vaults[1..], id)
  }

  function SetVault(vaults: seq<Vault>, v: Vault): (r: seq<Vault>)
    ensures |r| == |vaults|
  {
    if vaults == [] then []
    else if vaults[0].id == v.id then [v] + vaults[1..]
    else [vaults[0]] + SetVault(vaults[1..], v)
  }

  function OtherVault(id: Uuid): Vault -> bool { (v: Vault) => v.id != id }

  function NewVault(id: Uuid, kind: Kind, nameEnc: Blob, now: Time): Vault {
    Vault(id, kind, nameEnc, 0, now, now, None, 0, [], [], [])
  }

  // ---- chunks --------------------------------------------------------------------

  /** Chunks 0 .. n-1 that are on disk, and their total size. */
  function CountChunks(files: Files, vault: Uuid, attachment: Uuid, n: nat): nat {
    if n == 0 then 0
    else CountChunks(files, vault, attachment, n - 1) + (if ChunkPath(vault, attachment, n - 1) in files then 1 else 0)
  }

  function SumChunks(files: Files, vault: Uuid, attachment: Uuid, n: nat): nat {
    if n == 0 then 0
    else
      var p := ChunkPath(vault, attachment, n - 1);
      SumChunks(files, vault, attachment, n - 1) + (if p in files then files[p] else 0)
  }

  predicate Whole(files: Files, vault: Uuid, a: Attachment) {
    a.chunks >= 0
    && CountChunks(files, vault, a.id, a.chunks) == a.chunks
    && SumChunks(files, vault, a.id, a.chunks) == a.size
  }

  predicate HasChunks(files: Files, vault: Uuid, attachment: Uuid) {
    exists p :: p in files && p.vault == vault && p.attachment == attachment
  }

  /** Rename the directory of an attachment from one vault to another. */
  function MoveDir(files: Files, attachment: Uuid, source: Uuid, target: Uuid): Files {
    map p | p in Relocated(files.Keys, attachment, source, target) ::
      files[if p.attachment == attachment && p.vault == target then p.(vault := source) else p]
  }

  function Relocated(paths: set<ChunkPath>, attachment: Uuid, source: Uuid, target: Uuid): (r: set<ChunkPath>)
    ensures forall p :: p in r <==>
                          if p.attachment != attachment then p in paths
                          else if p.vault == target then p.(vault := source) in paths
                          else p.vault != source && p in paths
  {
    (set p | p in paths && p.attachment != attachment)
    + (set p | p in paths && p.attachment == attachment && p.vault != source && p.vault != target)
    + (set p | p in paths && p.attachment == attachment && p.vault == source :: p.(vault := target))
  }

  predicate Targets(removals: set<Removal>, p: ChunkPath) {
    AttachmentDir(p.vault, p.attachment) in removals || VaultDir(p.vault) in removals
  }

  function Cleanup(files: Files, removals: set<Removal>, leftover: set<ChunkPath>): Files {
    map p | p in files && (!Targets(removals, p) || p in leftover) :: files[p]
  }

  /** The directories of the attachments a vault no longer lists. */
  function Dropped(v: Vault, w: Vault): set<Removal> {
    set a | a in v.attachments && a !in w.attachments :: AttachmentDir(v.id, a.id)
  }

  // ---- attachments -----------------------------------------------------------------

  function CheckAttachment(req: CreateAttachmentRequest, opts: Options): Option<Error> {
    if req.size < 0 || req.size > opts.maxAttachmentBytes then Some(AttachmentTooLarge)
    else if !Attachments.Consistent(req.size, req.chunks) then Some(InvalidAttachment)
    else None
  }

  function Announce(v: Vault, req: CreateAttachmentRequest, now: Time): Result<(Vault, Attachment), Error> {
    if FindLive(v.items, req.itemId).None? then Err(NotFound)
    else if FindAttachment(v.attachments, req.id).Some? then Err(VaultModel.AttachmentExists)
    else
      var a := Attachment(req.id, req.itemId, req.size, req.chunks, false, now);
      Ok((v.(attachments := v.attachments + [a]), a))
  }

  function Complete(v: Vault, id: Uuid, files: Files): Result<(Vault, Attachment), Error> {
    var found := FindAttachment(v.attachments, id);
    if found.None? then Err(NotFound)
    else if !Whole(files, v.id, found.value) then Err(AttachmentIncomplete)
    else
      var a := found.value.(complete := true);
      Ok((v.(attachments := SetAttachment(v.attachments, a)), a))
  }

  // ---- operations ------------------------------------------------------------------

  function ValidateName(nameEnc: Blob): Option<Error> {
    if Size(nameEnc) <= OVERHEAD || Size(nameEnc) > 4096 then Some(InvalidBlob) else None
  }

  /** The checks made on a request before the store is read. */
  function Precheck(op: Op, opts: Options): Option<Error> {
    match op
    case CreateVault(_, name) => ValidateName(name)
    case InVault(_, Rename(name)) => ValidateName(name)
    case InVault(_, Put(_, req)) => ValidateItem(req.itemType, req.ciphertext, opts.maxItemBytes)
    case InVault(_, ImportItems(req)) => CheckImport(req, opts)
    case InVault(_, WriteManifest(req)) => ValidateManifest(req.ciphertext, opts.maxItemBytes)
    case InVault(_, CreateAttachment(req)) => CheckAttachment(req, opts)
    case _ => None
  }

  function NotSkipped(keep: nat): ImportItem -> bool { (it: ImportItem) => !Skipped(it, keep) }

  /** An operation on one vault. */
  function ApplyInVault(v: Vault, op: VaultOp, files: Files, now: Time, opts: Options): Result<(Vault, Output), Error> {
    match op
    case Rename(name) =>
      var w := v.(nameEnc := name, updatedAt := now);
      Ok((w, VaultStored(w)))
    case Put(id, req) =>
      var r := PutItem(v, id, req, now, opts);
      if r.Err? then Err(r.error) else Ok((r.value.0, Written(r.value.1, r.value.2)))
    case Delete(id, moved, manifest) =>
      var r := DeleteItem(v, id, moved, manifest, now, opts);
      if r.Err? then Err(r.error) else Ok((r.value, Done))
    case ImportItems(req) =>
      var r := Import(v, req, now, opts);
      if r.Err? then Err(r.error)
      else Ok((r.value, Imported(r.value.revision, |Filter(req.items, NotSkipped(opts.itemHistory))|)))
    case WriteManifest(req) =>
      var r := PutManifest(v, req, now);
      if r.Err? then Err(r.error) else Ok((r.value, ManifestStored(req.ciphertext, r.value.manifestRevision)))
    case PurgeItem(id) =>
      var r := Purge(v, id);
      if r.Err? then Err(r.error) else Ok((r.value, Done))
    case EmptyVaultTrash => Ok((EmptyTrash(v), Done))
    case CreateAttachment(req) =>
      var r := Announce(v, req, now);
      if r.Err? then Err(r.error) else Ok((r.value.0, Announced(r.value.1)))
    case CompleteAttachment(id) =>
      var r := Complete(v, id, files);
      if r.Err? then Err(r.error) else Ok((r.value.0, Announced(r.value.1)))
    case DeleteAttachment(id) =>
      if FindAttachment(v.attachments, id).None? then Err(NotFound)
      else Ok((v.(attachments := Filter(v.attachments, NotAttachment(id))), Done))
  }

  /** Only these give up the directories of the attachments they drop. */
  predicate Drops(op: VaultOp) { op.PurgeItem? || op.EmptyVaultTrash? || op.DeleteAttachment? }

  /** Following an item to another vault: the record moves, and its chunks
      with it, before the file is saved. */
  function Move(d: Disk, source: Uuid, id: Uuid, target: Uuid, item: Uuid, env: Env): Result<Applied, Error> {
    var v := FindVault(d.vaults, source);
    if v.None? then Err(NotFound)
    else
      var found := FindAttachment(v.value.attachments, id);
      if found.None? then Err(NotFound)
      else
        var t := FindVault(d.vaults, target);
        if t.None? || FindLive(t.value.items, item).None? then Err(NotFound)
        else
          var a := found.value.(itemId := item);
          if target == source then
            var w := v.value.(attachments := SetAttachment(v.value.attachments, a));
            Ok(Applied(SetVault(d.vaults, w), d.files, {}, None, Announced(a)))
          else if FindAttachment(t.value.attachments, id).Some? then Err(VaultModel.AttachmentExists)
          else
            var w := t.value.(attachments := t.value.attachments + [a]);
            var u := v.value.(attachments := Filter(v.value.attachments, NotAttachment(id)));
            var vaults := SetVault(SetVault(d.vaults, w), u);
            if !HasChunks(d.files, source, id) && !env.emptyDir then Ok(Applied(vaults, d.files, {}, None, Announced(a)))
            else if !env.renameOk || HasChunks(d.files, target, id) then Err(LocalIo)
            else Ok(Applied(vaults, MoveDir(d.files, id, source, target), {}, Some((id, source, target)), Announced(a)))
  }

  function Apply(d: Disk, op: Op, now: Time, opts: Options, env: Env): Result<Applied, Error> {
    match op
    case CreateVault(id, name) =>
      if FindVault(d.vaults, id).Some? then Err(VaultIdTaken)
      else
        var v := NewVault(id, Shared, name, now);
        Ok(Applied(d.vaults + [v], d.files, {}, None, VaultStored(v)))
    case DeleteVault(id) =>
      var v := FindVault(d.vaults, id);
      if v.None? then Err(NotFound)
      else if v.value.kind == Personal then Err(Forbidden)
      else Ok(Applied(Filter(d.vaults, OtherVault(id)), d.files, {VaultDir(id)}, None, Done))
    case InVault(id, inner) =>
      var v := FindVault(d.vaults, id);
      if v.None? then Err(NotFound)
      else
        var r := ApplyInVault(v.value, inner, d.files, now, opts);
        if r.Err? then Err(r.error)
        else
          var removals := if Drops(inner) then Dropped(v.value, r.value.0) else {};
          Ok(Applied(SetVault(d.vaults, r.value.0), d.files, removals, None, r.value.1))
    case MoveAttachment(id, attachment, target, item) => Move(d, id, attachment, target, item, env)
  }

  function Pruner(now: Time, opts: Options): Vault -> Vault { (v: Vault) => Prune(v, now, opts) }

  function PruneAll(vaults: seq<Vault>, now: Time, opts: Options): seq<Vault> { Map(vaults, Pruner(now, opts)) }

  function PruneRemovals(vaults: seq<Vault>, now: Time, opts: Options): set<Removal> {
    set v, r | v in vaults && r in Dropped(v, Prune(v, now, opts)) :: r
  }

  /** Renames already made are undone when the write fails after them. */
  function Undo(a: Applied): Files {
    if a.moved.None? then a.files
    else MoveDir(a.files, a.moved.value.0, a.moved.value.2, a.moved.value.1)
  }

  /** A write: apply, prune every vault, save, then clean up; or undo. */
  function Write(d: Disk, op: Op, now: Time, opts: Options, env: Env): (Disk, Result<Output, Error>) {
    if Precheck(op, opts).Some? then (d, Err(Precheck(op, opts).value))
    else
      var r := Apply(d, op, now, opts, env);
      if r.Err? then (d, Err(r.error))
      else
        var a := r.value;
        if !env.saveOk then (Disk(d.vaults, Undo(a)), Err(LocalIo))
        else
          var removals := a.removals + PruneRemovals(a.vaults, now, opts);
          (Disk(PruneAll(a.vaults, now, opts), Cleanup(a.files, removals, env.leftover)), Ok(a.output))
  }

  /** One chunk, outside the file: replaces the one of that index while the
      attachment is not complete. */
  function PutChunk(d: Disk, vault: Uuid, id: Uuid, index: int, size: nat, env: Env): (Disk, Result<Output, Error>) {
    var v := FindVault(d.vaults, vault);
    if v.None? || FindAttachment(v.value.attachments, id).None? then (d, Err(NotFound))
    else
      var a := FindAttachment(v.value.attachments, id).value;
      if a.complete then (d, Err(VaultModel.AttachmentComplete))
      else if index < 0 || index >= a.chunks then (d, Err(InvalidAttachment))
      else if size < OVERHEAD || size > Attachments.CHUNK + OVERHEAD then (d, Err(InvalidAttachment))
      else if !env.saveOk then (d, Err(LocalIo))
      else (d.(files := d.files[ChunkPath(vault, id, index) := size]), Ok(Done))
  }
}
