/** One vault of the local store: its records, the rules each operation
    follows, and what every operation keeps. Each operation is a function
    from the vault before to the vault after, or to the error the caller gets. */
module VaultModel {
  import opened Wrappers
  import opened Seqs
  import opened Text
  import opened Crypto

  /** Seconds; the clock may jump either way. */
  type Time = int

  const IMPORT_BATCH := 1000

  datatype Options = Options(
    itemHistory: nat,
    trashDays: nat,
    maxItemBytes: nat,
    maxAttachmentBytes: nat
  )

  datatype Item = Item(
    id: Uuid,
    itemType: string,
    revision: int,
    ciphertext: Blob,
    createdAt: Time,
    updatedAt: Time,
    deletedAt: Option<Time>
  )
  {
    predicate Live() { deletedAt.None? }
  }

  datatype Version = Version(
    itemId: Uuid,
    revision: int,
    itemType: string,
    ciphertext: Blob,
    writtenAt: Time,
    replacedAt: Time
  )

  datatype Attachment = Attachment(
    id: Uuid,
    itemId: Uuid,
    size: int,
    chunks: int,
    complete: bool,
    createdAt: Time
  )

  datatype Kind = Personal | Shared

  datatype Vault = Vault(
    id: Uuid,
    kind: Kind,
    nameEnc: Blob,
    revision: int,
    createdAt: Time,
    updatedAt: Time,
    manifest: Option<Blob>,
    manifestRevision: int,
    items: seq<Item>,
    versions: seq<Version>,
    attachments: seq<Attachment>
  )

  datatype ManifestWrite = ManifestWrite(ciphertext: Blob, baseRevision: int)
  datatype PutItemRequest = PutItemRequest(
    itemType: string, ciphertext: Blob, baseRevision: Option<int>, manifest: Option<ManifestWrite>)
  datatype PutManifestRequest = PutManifestRequest(ciphertext: Blob, baseRevision: int, vaultRevision: int)
  datatype ImportVersion = ImportVersion(itemType: string, ciphertext: Blob, writtenAt: Time, replacedAt: Time)
  datatype ImportItem = ImportItem(
    id: Uuid, itemType: string, ciphertext: Blob, createdAt: Time, updatedAt: Time,
    deletedAt: Option<Time>, versions: seq<ImportVersion>)
  datatype ImportRequest = ImportRequest(items: seq<ImportItem>, manifest: Option<(Blob, int)>)
  datatype CreateAttachmentRequest = CreateAttachmentRequest(id: Uuid, itemId: Uuid, size: int, chunks: int)

  datatype Error =
    | NotFound
    | RevisionMismatch
    | ItemTypeChanged
    | InvalidItemType
    | InvalidBlob
    | ItemTooLarge
    | ManifestRequired
    | ManifestConflict(current: Option<(Blob, int)>)
    | ManifestTooLarge
    | InvalidManifest
    | ImportTooLarge
    | InvalidImport
    | ImportClosed
    | ItemExists(ids: seq<Uuid>)
    | AttachmentTooLarge
    | InvalidAttachment
    | AttachmentExists
    | AttachmentComplete
    | AttachmentIncomplete
    | VaultIdTaken
    | Forbidden
    | LocalIo

  // ---- validation ------------------------------------------------------------

  predicate TypeChar(c: char) {
    'a' <= c <= 'z' || 'A' <= c <= 'Z' || '0' <= c <= '9' || c == '-' || c == '_' || c == '.'
  }

  function ValidateItem(itemType: string, ciphertext: Blob, max: nat): Option<Error> {
    if !(0 < |itemType| <= 64 && (forall i :: 0 <= i < |itemType| ==> TypeChar(itemType[i]))) || itemType == "manifest"
    then Some(InvalidItemType)
    else if Size(ciphertext) <= OVERHEAD then Some(InvalidBlob)
    else if Size(ciphertext) > max then Some(ItemTooLarge)
    else None
  }

  function ValidateManifest(ciphertext: Blob, maxItem: nat): Option<Error> {
    if Size(ciphertext) <= OVERHEAD then Some(InvalidBlob)
    else if Size(ciphertext) > 8 * maxItem then Some(ManifestTooLarge)
    else None
  }

  // ---- lookups ---------------------------------------------------------------

  function Find(items: seq<Item>, id: Uuid): (r: Option<Item>)
    ensures r.Some? ==> r.value in items && r.value.id == id
    ensures r.None? <==> forall i :: i in items ==> i.id != id
  {
    if items == [] then None
    else if items[0].id == id then Some(items[0])
    else Find(items[1..], id)
  }

  function FindLive(items: seq<Item>, id: Uuid): (r: Option<Item>)
    ensures r.Some? ==> r.value in items && r.value.id == id && r.value.Live()
  {
    var r := Find(items, id);
    if r.Some? && r.value.Live() then r else None
  }

  function FindAttachment(attachments: seq<Attachment>, id: Uuid): (r: Option<Attachment>)
    ensures r.Some? ==> r.value in attachments && r.value.id == id
    ensures r.None? <==> forall a :: a in attachments ==> a.id != id
  {
    if attachments == [] then None
    else if attachments[0].id == id then Some(attachments[0])
    else FindAttachment(attachments[1..], id)
  }

  /** Replace the record of that id, or add it at the end. */
  function Upsert(items: seq<Item>, item: Item): seq<Item> {
    if items == [] then [item]
    else if items[0].id == item.id then [item] + items[1..]
    else [items[0]] + Upsert(items[1..], item)
  }

  function SetAttachment(attachments: seq<Attachment>, a: Attachment): seq<Attachment> {
    if attachments == [] then []
    else if attachments[0].id == a.id then [a] + attachments[1..]
    else [attachments[0]] + SetAttachment(attachments[1..], a)
  }

  // ---- what is kept of a list ---------------------------------------------------

  function NotOf(ids: set<Uuid>): Version -> bool { (ver: Version) => ver.itemId !in ids }

  function OfItem(id: Uuid): Version -> bool { (ver: Version) => ver.itemId == id }

  function NewerThan(id: Uuid, revision: int): Version -> bool {
    (ver: Version) => ver.itemId == id && ver.revision > revision
  }

  function OnOther(ids: set<Uuid>): Attachment -> bool { (a: Attachment) => a.itemId !in ids }

  function NotAttachment(id: Uuid): Attachment -> bool { (a: Attachment) => a.id != id }

  function VersionsOf(v: Vault, id: Uuid): seq<Version> { Filter(v.versions, OfItem(id)) }

  // ---- the pieces of an operation ----------------------------------------------

  function Bump(v: Vault, now: Time): Vault { v.(revision := v.revision + 1, updatedAt := now) }

  function ManifestProto(v: Vault): Option<(Blob, int)> {
    if v.manifest.Some? then Some((v.manifest.value, v.manifestRevision)) else None
  }

  /** The manifest an item write must store: compulsory once the vault has
      one, and based on the current revision. */
  function NextManifest(v: Vault, write: Option<ManifestWrite>, maxItem: nat): Result<Option<(Blob, int)>, Error> {
    if write.None? then
      if v.manifest.Some? then Err(ManifestRequired) else Ok(None)
    else if ValidateManifest(write.value.ciphertext, maxItem).Some? then
      Err(ValidateManifest(write.value.ciphertext, maxItem).value)
    else if write.value.baseRevision != v.manifestRevision then
      Err(ManifestConflict(ManifestProto(v)))
    else
      Ok(Some((write.value.ciphertext, v.manifestRevision + 1)))
  }

  function StoreManifest(v: Vault, manifest: Option<(Blob, int)>): Vault {
    if manifest.None? then v else v.(manifest := Some(manifest.value.0), manifestRevision := manifest.value.1)
  }

  function Snapshot(current: Item, now: Time): Version {
    Version(current.id, current.revision, current.itemType, current.ciphertext, current.updatedAt, now)
  }

  predicate Recorded(versions: seq<Version>, id: Uuid, revision: int) {
    exists i :: 0 <= i < |versions| && versions[i].itemId == id && versions[i].revision == revision
  }

  /** How many kept versions of the item are more recent than `revision`. */
  function Newer(versions: seq<Version>, id: Uuid, revision: int): nat {
    |Filter(versions, NewerThan(id, revision))|
  }

  /** A version stays when fewer than `keep` versions of its item are newer. */
  function AmongLast(versions: seq<Version>, id: Uuid, keep: nat): Version -> bool {
    (ver: Version) => ver.itemId == id ==> Newer(versions, id, ver.revision) < keep
  }

  /** Record the current version of an item before it is replaced, then keep
      only the `keep` last ones of that item. */
  function KeepVersion(versions: seq<Version>, current: Item, now: Time, keep: nat): seq<Version> {
    if keep == 0 then versions
    else
      var all := if Recorded(versions, current.id, current.revision) then versions else versions + [Snapshot(current, now)];
      Filter(all, AmongLast(all, current.id, keep))
  }

  // ---- items -------------------------------------------------------------------

  function PutItem(v: Vault, id: Uuid, req: PutItemRequest, now: Time, opts: Options): Result<(Vault, Item, bool), Error> {
    var manifest := NextManifest(v, req.manifest, opts.maxItemBytes);
    if manifest.Err? then Err(manifest.error)
    else
      var current := Find(v.items, id);
      var live := FindLive(v.items, id);
      var base := if live.Some? then Some(live.value.revision) else None;
      if base != req.baseRevision then Err(RevisionMismatch)
      else if live.Some? && live.value.itemType != req.itemType then Err(ItemTypeChanged)
      else
        var versions := if live.Some? then KeepVersion(v.versions, live.value, now, opts.itemHistory) else v.versions;
        var b := Bump(v, now);
        var created := if current.Some? then current.value.createdAt else now;
        var item := Item(id, req.itemType, b.revision, req.ciphertext, created, now, None);
        var w := StoreManifest(b.(versions := versions, items := Upsert(v.items, item)), manifest.value);
        Ok((w, item, live.None?))
  }

  function Tombstone(i: Item, revision: int, now: Time): Item {
    i.(deletedAt := Some(now), updatedAt := now, revision := revision, ciphertext := EMPTY)
  }

  function DeleteItem(v: Vault, id: Uuid, moved: bool, manifest: Option<ManifestWrite>, now: Time, opts: Options):
    Result<Vault, Error>
  {
    var live := FindLive(v.items, id);
    if live.None? then Err(NotFound)
    else
      var next := NextManifest(v, manifest, opts.maxItemBytes);
      if next.Err? then Err(next.error)
      else
        var versions := if moved then v.versions else KeepVersion(v.versions, live.value, now, opts.itemHistory);
        var b := Bump(StoreManifest(v, next.value), now);
        Ok(b.(versions := versions, items := Upsert(v.items, Tombstone(live.value, b.revision, now))))
  }

  // ---- import ------------------------------------------------------------------

  /** What is checked of each item of a batch, before the vault is read. */
  function CheckImported(it: ImportItem, max: nat): Option<Error> {
    if it.deletedAt.Some? && it.versions == [] then Some(InvalidImport)
    else if it.deletedAt.Some?
            && (Size(it.ciphertext) != 0 || it.versions[|it.versions| - 1].itemType != it.itemType) then Some(InvalidImport)
    else if it.deletedAt.None? && ValidateItem(it.itemType, it.ciphertext, max).Some? then
      ValidateItem(it.itemType, it.ciphertext, max)
    else CheckVersions(it.versions, max)
  }

  function CheckVersions(versions: seq<ImportVersion>, max: nat): Option<Error> {
    if versions == [] then None
    else
      var e := ValidateItem(versions[0].itemType, versions[0].ciphertext, max);
      if e.Some? then e else CheckVersions(versions[1..], max)
  }

  function CheckBatch(items: seq<ImportItem>, known: set<Uuid>, max: nat): Option<Error> {
    if items == [] then None
    else if items[0].id in known then Some(InvalidImport)
    else
      var e := CheckImported(items[0], max);
      if e.Some? then e else CheckBatch(items[1..], known + {items[0].id}, max)
  }

  function CheckImport(req: ImportRequest, opts: Options): Option<Error> {
    if |req.items| > IMPORT_BATCH then Some(ImportTooLarge)
    else
      var e := CheckBatch(req.items, {}, opts.maxItemBytes);
      if e.Some? then e
      else if req.manifest.Some? && ValidateManifest(req.manifest.value.0, opts.maxItemBytes).Some? then
        ValidateManifest(req.manifest.value.0, opts.maxItemBytes)
      else if req.manifest.Some? && req.manifest.value.1 < 1 then Some(InvalidManifest)
      else None
  }

  function ImportVersions(v: Vault, id: Uuid, versions: seq<ImportVersion>, now: Time): Vault {
    if versions == [] then v
    else
      var n := |versions| - 1;
      var b := Bump(ImportVersions(v, id, versions[..n], now), now);
      var ver := versions[n];
      b.(versions := b.versions + [Version(id, b.revision, ver.itemType, ver.ciphertext, ver.writtenAt, ver.replacedAt)])
  }

  predicate Skipped(it: ImportItem, keep: nat) { it.deletedAt.Some? && keep == 0 }

  function ImportOne(v: Vault, it: ImportItem, now: Time, keep: nat): Vault {
    if Skipped(it, keep) then v
    else
      var b := Bump(ImportVersions(v, it.id, LastK(it.versions, keep), now), now);
      b.(items := b.items
           + [Item(it.id, it.itemType, b.revision, it.ciphertext, it.createdAt, it.updatedAt, it.deletedAt)])
  }

  function ImportAll(v: Vault, items: seq<ImportItem>, now: Time, keep: nat): Vault {
    if items == [] then v
    else ImportOne(ImportAll(v, items[..|items| - 1], now, keep), items[|items| - 1], now, keep)
  }

  function Present(v: Vault): ImportItem -> bool { (it: ImportItem) => Find(v.items, it.id).Some? }

  function IdOf(): ImportItem -> Uuid { (it: ImportItem) => it.id }

  /** Only ids the vault never had, and only while it has no manifest. */
  function Import(v: Vault, req: ImportRequest, now: Time, opts: Options): Result<Vault, Error> {
    if v.manifest.Some? then Err(ImportClosed)
    else
      var existing := Map(Filter(req.items, Present(v)), IdOf());
      if existing != [] then Err(ItemExists(existing))
      else Ok(StoreManifest(ImportAll(v, req.items, now, opts.itemHistory), req.manifest))
  }

  // ---- manifest ----------------------------------------------------------------

  function PutManifest(v: Vault, req: PutManifestRequest, now: Time): Result<Vault, Error> {
    if v.revision != req.vaultRevision then Err(RevisionMismatch)
    else if req.baseRevision != v.manifestRevision then Err(ManifestConflict(ManifestProto(v)))
    else Ok(Bump(StoreManifest(v, Some((req.ciphertext, v.manifestRevision + 1))), now))
  }

  // ---- trash -------------------------------------------------------------------

  function Purge(v: Vault, id: Uuid): Result<Vault, Error> {
    var i := Find(v.items, id);
    var versions := if i.Some? && !i.value.Live() then Filter(v.versions, NotOf({id})) else v.versions;
    if |versions| == |v.versions| then Err(NotFound)
    else Ok(v.(versions := versions, attachments := Filter(v.attachments, OnOther({id}))))
  }

  function DeletedIds(v: Vault): set<Uuid> { set i | i in v.items && !i.Live() :: i.id }

  function EmptyTrash(v: Vault): Vault {
    v.(versions := Filter(v.versions, NotOf(DeletedIds(v))),
       attachments := Filter(v.attachments, OnOther(DeletedIds(v))))
  }

  // ---- retention ---------------------------------------------------------------

  function Limit(now: Time, opts: Options): Time { now - 86400 * opts.trashDays }

  function ExpiredIds(v: Vault, now: Time, opts: Options): set<Uuid> {
    set i | i in v.items && i.deletedAt.Some? && i.deletedAt.value < Limit(now, opts) :: i.id
  }

  function RestorableIds(v: Vault, now: Time, opts: Options): set<Uuid> {
    set i | i in v.items && (i.deletedAt.None? || i.deletedAt.value > Limit(now, opts)) :: i.id
  }

  /** More than a day old, and never completed or on an item that is gone. */
  predicate Stale(v: Vault, a: Attachment, now: Time, opts: Options) {
    a.createdAt < now - 86400 && (!a.complete || a.itemId !in RestorableIds(v, now, opts))
  }

  function NotStale(v: Vault, now: Time, opts: Options): Attachment -> bool {
    (a: Attachment) => !Stale(v, a, now, opts)
  }

  function Prune(v: Vault, now: Time, opts: Options): Vault {
    v.(versions := Filter(v.versions, NotOf(ExpiredIds(v, now, opts))),
       attachments := Filter(v.attachments, NotStale(v, now, opts)))
  }
}
