/** What every write of the local store keeps, over whole runs. */
module LocalStoreLaws {
  import opened Wrappers
  import opened Seqs
  import opened Text
  import opened Crypto
  import opened VaultModel
  import opened VaultLaws
  import opened LocalStore
  import Sync

  predicate VaultsApart(v: Vault, w: Vault) { v.id != w.id }

  ghost predicate AttachmentsOnDisk(v: Vault, files: Files) {
    forall a :: a in v.attachments ==> a.chunks >= 1 && (a.complete ==> Whole(files, v.id, a))
  }

  ghost predicate Holds(vaults: seq<Vault>, files: Files) {
    && Pairwise(vaults, VaultsApart)
    && (forall v :: v in vaults ==> Valid(v) && AttachmentsOnDisk(v, files))
  }

  /** Vault ids are unique, each vault is valid, and every attachment marked
      complete has all its chunks, of the announced total size. */
  ghost predicate DiskValid(d: Disk) { Holds(d.vaults, d.files) }

  /** Nothing in the store refers to what is about to be removed. */
  ghost predicate Unreferenced(vaults: seq<Vault>, removals: set<Removal>) {
    && (forall v :: v in vaults ==> VaultDir(v.id) !in removals)
    && (forall v, a :: v in vaults && a in v.attachments ==> AttachmentDir(v.id, a.id) !in removals)
  }

  // ---- vaults by id ---------------------------------------------------------------

  lemma {:induction false} FindVaultUnique(vaults: seq<Vault>, v: Vault)
    requires Pairwise(vaults, VaultsApart) && v in vaults
    ensures FindVault(vaults, v.id) == Some(v)
  {
    if vaults[0].id == v.id {
      assert forall k :: 0 < k < |vaults| ==> VaultsApart(vaults[0], vaults[k]);
    } else {
      FindVaultUnique(vaults[1..], v);
    }
  }

  lemma {:induction false} SetVaultAt(vaults: seq<Vault>, w: Vault, i: nat)
    requires Pairwise(vaults, VaultsApart) && i < |vaults|
    ensures SetVault(vaults, w)[i] == if vaults[i].id == w.id then w else vaults[i]
  {
    if i > 0 {
      assert VaultsApart(vaults[0], vaults[i]);
      PairwiseTail(vaults, VaultsApart);
      if vaults[0].id != w.id {
        SetVaultAt(vaults[1..], w, i - 1);
      }
    }
  }

  lemma SetVaultLaws(vaults: seq<Vault>, w: Vault)
    requires Pairwise(vaults, VaultsApart)
    ensures Pairwise(SetVault(vaults, w), VaultsApart)
    ensures forall i :: 0 <= i < |vaults| ==>
                          SetVault(vaults, w)[i] == if vaults[i].id == w.id then w else vaults[i]
  {
    forall i | 0 <= i < |vaults| ensures SetVault(vaults, w)[i] == if vaults[i].id == w.id then w else vaults[i] {
      SetVaultAt(vaults, w, i);
    }
    forall i, j | 0 <= i < j < |vaults| ensures VaultsApart(SetVault(vaults, w)[i], SetVault(vaults, w)[j]) {
      assert VaultsApart(vaults[i], vaults[j]);
    }
  }

  lemma InSetVault(vaults: seq<Vault>, w: Vault, v: Vault)
    requires Pairwise(vaults, VaultsApart) && v in SetVault(vaults, w)
    ensures v == w || (v in vaults && v.id != w.id)
  {
    SetVaultLaws(vaults, w);
    var i :| 0 <= i < |vaults| && SetVault(vaults, w)[i] == v;
  }

  lemma {:induction false} FindSetVault(vaults: seq<Vault>, w: Vault, id: Uuid)
    ensures FindVault(SetVault(vaults, w), id)
         == if id == w.id && FindVault(vaults, id).Some? then Some(w) else FindVault(vaults, id)
  {
    if vaults != [] {
      if vaults[0].id == w.id {
        assert ([w] + vaults[1..])[1..] == vaults[1..];
      } else {
        FindSetVault(vaults[1..], w, id);
        var t := SetVault(vaults[1..], w);
        assert ([vaults[0]] + t)[1..] == t;
      }
    }
  }

  lemma {:induction false} FindPruned(vaults: seq<Vault>, now: Time, opts: Options, id: Uuid)
    ensures FindVault(PruneAll(vaults, now, opts), id)
         == match FindVault(vaults, id) case None => None case Some(v) => Some(Prune(v, now, opts))
  {
    if vaults != [] {
      FindPruned(vaults[1..], now, opts, id);
      MapTail(vaults, Pruner(now, opts));
    }
  }

  lemma {:induction false} FindFiltered(vaults: seq<Vault>, gone: Uuid, id: Uuid)
    ensures FindVault(Filter(vaults, OtherVault(gone)), id) == if id == gone then None else FindVault(vaults, id)
  {
    if vaults != [] {
      FindFiltered(vaults[1..], gone, id);
      var t := Filter(vaults[1..], OtherVault(gone));
      assert ([vaults[0]] + t)[1..] == t;
    }
  }

  lemma {:induction false} FindAppended(vaults: seq<Vault>, v: Vault, id: Uuid)
    requires FindVault(vaults, v.id).None?
    ensures FindVault(vaults + [v], id) == if id == v.id then Some(v) else FindVault(vaults, id)
  {
    if vaults != [] {
      assert vaults[0] in vaults;
      assert (vaults + [v])[1..] == vaults[1..] + [v];
      FindAppended(vaults[1..], v, id);
    } else {
      assert vaults + [v] == [v] && [v][1..] == [];
    }
  }

  // ---- chunks ---------------------------------------------------------------------

  ghost predicate SameChunks(f: Files, g: Files, vault: Uuid, vault': Uuid, attachment: Uuid) {
    forall index ::
      var p, q := ChunkPath(vault, attachment, index), ChunkPath(vault', attachment, index);
      (p in f <==> q in g) && (p in f ==> f[p] == g[q])
  }

  lemma {:induction false} SameChunksCount(f: Files, g: Files, vault: Uuid, vault': Uuid, attachment: Uuid, n: nat)
    requires SameChunks(f, g, vault, vault', attachment)
    ensures CountChunks(f, vault, attachment, n) == CountChunks(g, vault', attachment, n)
    ensures SumChunks(f, vault, attachment, n) == SumChunks(g, vault', attachment, n)
  {
    if n > 0 {
      SameChunksCount(f, g, vault, vault', attachment, n - 1);
      var p, q := ChunkPath(vault, attachment, n - 1), ChunkPath(vault', attachment, n - 1);
      assert (p in f <==> q in g) && (p in f ==> f[p] == g[q]);
    }
  }

  lemma SameChunksWhole(f: Files, g: Files, vault: Uuid, vault': Uuid, a: Attachment)
    requires SameChunks(f, g, vault, vault', a.id)
    ensures Whole(f, vault, a) <==> Whole(g, vault', a)
  {
    if a.chunks >= 0 {
      SameChunksCount(f, g, vault, vault', a.id, a.chunks);
    }
  }

  /** Every chunk counted is there, and only there can it be. */
  lemma {:induction false} CountMeansAll(files: Files, vault: Uuid, attachment: Uuid, n: nat)
    ensures CountChunks(files, vault, attachment, n) <= n
    ensures CountChunks(files, vault, attachment, n) == n <==>
            forall i :: 0 <= i < n ==> ChunkPath(vault, attachment, i) in files
  {
    if n > 0 {
      CountMeansAll(files, vault, attachment, n - 1);
    }
  }

  /** The sizes of the chunks of a file, as they are sealed, add up. */
  lemma {:induction false} SumOfSealed(files: Files, vault: Uuid, attachment: Uuid, chunks: seq<Blob>)
    requires forall i :: 0 <= i < |chunks| ==>
               ChunkPath(vault, attachment, i) in files && files[ChunkPath(vault, attachment, i)] == Size(chunks[i])
    ensures SumChunks(files, vault, attachment, |chunks|) == Attachments.TotalSize(chunks)
  {
    if chunks != [] {
      SumOfSealed(files, vault, attachment, chunks[..|chunks| - 1]);
    }
  }

  /** Uploading the sealed chunks of a file, announced as they are, is enough to
      complete it. */
  lemma SealedFileIsWhole(files: Files, vault: Uuid, a: Attachment, key: Key, id: string, data: seq<byte>, nonce: nat -> nat)
    requires |data| <= Attachments.LIMIT && a.size == Attachments.SealedSize(|data|) && a.chunks == Attachments.ChunkCount(|data|)
    requires var chunks := Attachments.SealAttachment(key, id, data, nonce);
             forall i :: 0 <= i < |chunks| ==>
               ChunkPath(vault, a.id, i) in files && files[ChunkPath(vault, a.id, i)] == Size(chunks[i])
    ensures Whole(files, vault, a)
  {
    var chunks := Attachments.SealAttachment(key, id, data, nonce);
    CountMeansAll(files, vault, a.id, a.chunks);
    SumOfSealed(files, vault, a.id, chunks);
    Attachments.TotalIsSealedSize(key, id, data, nonce);
  }

  lemma {:induction false} FindSetAttachment(attachments: seq<Attachment>, b: Attachment, id: Uuid)
    ensures FindAttachment(SetAttachment(attachments, b), id)
            == if id == b.id && FindAttachment(attachments, id).Some? then Some(b) else FindAttachment(attachments, id)
  {
    if attachments != [] {
      FindSetAttachment(attachments[1..], b, id);
      if attachments[0].id != b.id {
        assert ([attachments[0]] + SetAttachment(attachments[1..], b))[1..] == SetAttachment(attachments[1..], b);
      }
    }
  }

  /** An upload is completed exactly when every chunk announced is on disk and
      the sizes add up; then that record is complete, and nothing else moved. */
  lemma CompleteExactly(v: Vault, id: Uuid, files: Files)
    ensures var r, a := Complete(v, id, files), FindAttachment(v.attachments, id);
            && (r.Ok? <==> a.Some? && a.value.chunks >= 0
                           && (forall i :: 0 <= i < a.value.chunks ==> ChunkPath(v.id, id, i) in files)
                           && SumChunks(files, v.id, id, a.value.chunks) == a.value.size)
            && (r.Ok? ==>
                  var done := Attachment(id, a.value.itemId, a.value.size, a.value.chunks, true, a.value.createdAt);
                  && r.value.1 == done && r.value.0 == v.(attachments := r.value.0.attachments)
                  && forall x :: FindAttachment(r.value.0.attachments, x)
                                 == if x == id then Some(done) else FindAttachment(v.attachments, x))
  {
    var a := FindAttachment(v.attachments, id);
    if a.Some? && a.value.chunks >= 0 {
      CountMeansAll(files, v.id, id, a.value.chunks);
    }
    if Complete(v, id, files).Ok? {
      forall x ensures FindAttachment(SetAttachment(v.attachments, a.value.(complete := true)), x)
                       == if x == id then Some(a.value.(complete := true)) else FindAttachment(v.attachments, x)
      {
        FindSetAttachment(v.attachments, a.value.(complete := true), x);
      }
    }
  }

  lemma {:induction false} FindAppendedAttachment(attachments: seq<Attachment>, b: Attachment, id: Uuid)
    ensures FindAttachment(attachments + [b], id)
            == if FindAttachment(attachments, id).None? && id == b.id then Some(b) else FindAttachment(attachments, id)
  {
    if attachments != [] {
      assert (attachments + [b])[1..] == attachments[1..] + [b];
      FindAppendedAttachment(attachments[1..], b, id);
    }
  }

  /** An announcement is accepted exactly for a live item and a new id; it is
      recorded as made, not complete. */
  lemma AnnounceExactly(v: Vault, req: CreateAttachmentRequest, now: Time)
    requires Valid(v)
    ensures var r := Announce(v, req, now);
            && (r.Ok? <==> req.itemId in Sync.Live(v) && FindAttachment(v.attachments, req.id).None?)
            && (r.Ok? ==>
                  var made := Attachment(req.id, req.itemId, req.size, req.chunks, false, now);
                  && r.value.1 == made && r.value.0 == v.(attachments := r.value.0.attachments)
                  && forall x :: FindAttachment(r.value.0.attachments, x)
                                 == if x == req.id then Some(made) else FindAttachment(v.attachments, x))
  {
    Sync.LiveGet(v, req.itemId);
    if Announce(v, req, now).Ok? {
      var made := Announce(v, req, now).value.1;
      forall x ensures FindAttachment(v.attachments + [made], x) == if x == req.id then Some(made) else FindAttachment(v.attachments, x) {
        FindAppendedAttachment(v.attachments, made, x);
      }
    }
  }

  /** Moving a directory to where nothing was, and back, changes nothing. */
  lemma MoveBack(files: Files, attachment: Uuid, source: Uuid, target: Uuid)
    requires source != target && !HasChunks(files, target, attachment)
    ensures MoveDir(MoveDir(files, attachment, source, target), attachment, target, source) == files
  {
    var there := MoveDir(files, attachment, source, target);
    var back := MoveDir(there, attachment, target, source);
    assert there.Keys == Relocated(files.Keys, attachment, source, target);
    assert back.Keys == Relocated(there.Keys, attachment, target, source);
    forall p ensures p in back <==> p in files {
      assert p.attachment == attachment && p.vault == target ==> p !in files;
      assert p.attachment == attachment && p.vault == source ==> p.(vault := target).(vault := source) == p;
    }
    forall p | p in files ensures back[p] == files[p] {
      if p.attachment == attachment && p.vault == source {
        assert p.(vault := target).(vault := source) == p;
      }
    }
  }

  // ---- all or nothing ---------------------------------------------------------------

  lemma OnlyMovesMove(d: Disk, op: Op, now: Time, opts: Options, env: Env)
    requires Apply(d, op, now, opts, env).Ok? && !op.MoveAttachment?
    ensures Apply(d, op, now, opts, env).value.moved.None? && Apply(d, op, now, opts, env).value.files == d.files
  {}

  lemma MoveMoves(d: Disk, source: Uuid, id: Uuid, target: Uuid, item: Uuid, env: Env)
    requires Move(d, source, id, target, item, env).Ok?
    ensures var a := Move(d, source, id, target, item, env).value;
            if a.moved.None? then a.files == d.files
            else a.moved == Some((id, source, target)) && source != target && !HasChunks(d.files, target, id)
                 && a.files == MoveDir(d.files, id, source, target)
  {}

  lemma MoveUndone(d: Disk, source: Uuid, id: Uuid, target: Uuid, item: Uuid, env: Env)
    requires Move(d, source, id, target, item, env).Ok?
    ensures Undo(Move(d, source, id, target, item, env).value) == d.files
  {
    MoveMoves(d, source, id, target, item, env);
    if Move(d, source, id, target, item, env).value.moved.Some? {
      MoveBack(d.files, id, source, target);
    }
  }

  lemma UndoRestores(d: Disk, op: Op, now: Time, opts: Options, env: Env)
    requires Apply(d, op, now, opts, env).Ok?
    ensures Undo(Apply(d, op, now, opts, env).value) == d.files
  {
    if op.MoveAttachment? {
      MoveUndone(d, op.id, op.attachment, op.target, op.item, env);
    } else {
      OnlyMovesMove(d, op, now, opts, env);
    }
  }

  /** An operation that returns an error leaves the file and every chunk where
      they were, even when the save fails after the chunks were moved. */
  lemma FailureChangesNothing(d: Disk, op: Op, now: Time, opts: Options, env: Env)
    requires Write(d, op, now, opts, env).1.Err?
    ensures Write(d, op, now, opts, env).0 == d
  {
    if Precheck(op, opts).None? && Apply(d, op, now, opts, env).Ok? {
      UndoRestores(d, op, now, opts, env);
    }
  }

  // ---- one vault ----------------------------------------------------------------------

  lemma {:induction false} SetAttachmentLaws(attachments: seq<Attachment>, b: Attachment)
    requires Pairwise(attachments, Distinct)
    ensures Pairwise(SetAttachment(attachments, b), Distinct)
    ensures |SetAttachment(attachments, b)| == |attachments|
    ensures forall i :: 0 <= i < |attachments| ==>
                          SetAttachment(attachments, b)[i] == if attachments[i].id == b.id then b else attachments[i]
  {
    if attachments != [] {
      var t := attachments[1..];
      assert forall k :: 0 < k < |attachments| ==> Distinct(attachments[0], attachments[k]);
      if attachments[0].id != b.id {
        SetAttachmentLaws(t, b);
      }
      forall i | 0 <= i < |attachments|
        ensures SetAttachment(attachments, b)[i] == if attachments[i].id == b.id then b else attachments[i]
      {
        if i > 0 { assert attachments[i] == t[i - 1]; }
      }
      forall i, j | 0 <= i < j < |attachments|
        ensures Distinct(SetAttachment(attachments, b)[i], SetAttachment(attachments, b)[j])
      {
        assert Distinct(attachments[i], attachments[j]);
      }
    }
  }

  /** Rewriting one attachment record, or adding one, for an item on record. */
  lemma SetAttachmentKeeps(v: Vault, b: Attachment)
    requires Valid(v) && Find(v.items, b.itemId).Some?
    ensures var w := v.(attachments := SetAttachment(v.attachments, b));
            Valid(w) && Evolves(v, w)
    ensures forall a :: a in SetAttachment(v.attachments, b) ==> a == b || a in v.attachments
  {
    SetAttachmentLaws(v.attachments, b);
    var w := v.(attachments := SetAttachment(v.attachments, b));
    forall a | a in w.attachments ensures (a == b || a in v.attachments) && Find(w.items, a.itemId).Some? {
      var i :| 0 <= i < |w.attachments| && w.attachments[i] == a;
    }
    forall id ensures SameOrNewer(v, w, id) {}
  }

  lemma AddAttachmentKeeps(v: Vault, b: Attachment)
    requires Valid(v) && Find(v.items, b.itemId).Some? && FindAttachment(v.attachments, b.id).None?
    ensures var w := v.(attachments := v.attachments + [b]);
            Valid(w) && Evolves(v, w)
  {
    PairwiseAppend(v.attachments, b, Distinct);
    var w := v.(attachments := v.attachments + [b]);
    forall id ensures SameOrNewer(v, w, id) {}
  }

  lemma KeepAttachments(v: Vault, q: Attachment -> bool)
    requires Valid(v)
    ensures var w := v.(attachments := Filter(v.attachments, q));
            Valid(w) && Evolves(v, w)
  {
    var all := (ver: Version) => true;
    DropKeeps(v, all, q);
    FilterAll(v.versions, all);
  }

  predicate OnRecords(op: VaultOp) { op.Rename? || op.Put? || op.Delete? || op.ImportItems? || op.WriteManifest? }

  lemma RecordOpKeeps(v: Vault, op: VaultOp, files: Files, now: Time, opts: Options)
    requires Valid(v) && OnRecords(op)
    requires Precheck(InVault(v.id, op), opts).None?
    requires ApplyInVault(v, op, files, now, opts).Ok?
    ensures var w := ApplyInVault(v, op, files, now, opts).value.0;
            Valid(w) && Evolves(v, w) && w.attachments == v.attachments
  {
    match op
    case Rename(name) =>
      var w := v.(nameEnc := name, updatedAt := now);
      forall id ensures SameOrNewer(v, w, id) {}
    case Put(id, req) => PutItemKeeps(v, id, req, now, opts);
    case Delete(id, moved, manifest) => DeleteItemKeeps(v, id, moved, manifest, now, opts);
    case ImportItems(req) => ImportKeeps(v, req, now, opts);
    case WriteManifest(req) => PutManifestKeeps(v, req, now);
  }

  /** What such an operation leaves: some of the versions, some of the
      attachments. */
  lemma DropShape(v: Vault, op: VaultOp, files: Files, now: Time, opts: Options) returns (p: Version -> bool, q: Attachment -> bool)
    requires Drops(op) && ApplyInVault(v, op, files, now, opts).Ok?
    ensures ApplyInVault(v, op, files, now, opts).value.0
         == v.(versions := Filter(v.versions, p), attachments := Filter(v.attachments, q))
  {
    match op
    case PurgeItem(id) =>
      p, q := NotOf({id}), OnOther({id});
    case EmptyVaultTrash =>
      p, q := NotOf(DeletedIds(v)), OnOther(DeletedIds(v));
    case DeleteAttachment(id) =>
      p, q := (ver: Version) => true, NotAttachment(id);
      FilterAll(v.versions, p);
  }

  lemma DropOpKeeps(v: Vault, op: VaultOp, files: Files, now: Time, opts: Options)
    requires Valid(v) && Drops(op)
    requires ApplyInVault(v, op, files, now, opts).Ok?
    ensures var w := ApplyInVault(v, op, files, now, opts).value.0;
            Valid(w) && Evolves(v, w) && forall a :: a in w.attachments ==> a in v.attachments
  {
    var p, q := DropShape(v, op, files, now, opts);
    DropKeeps(v, p, q);
  }

  lemma AnnounceKeeps(v: Vault, req: CreateAttachmentRequest, files: Files, now: Time, opts: Options)
    requires Valid(v) && AttachmentsOnDisk(v, files) && CheckAttachment(req, opts).None? && Announce(v, req, now).Ok?
    ensures var w := Announce(v, req, now).value.0;
            w.id == v.id && Valid(w) && Evolves(v, w) && AttachmentsOnDisk(w, files)
  {
    AddAttachmentKeeps(v, Announce(v, req, now).value.1);
  }

  lemma CompleteKeeps(v: Vault, id: Uuid, files: Files)
    requires Valid(v) && AttachmentsOnDisk(v, files) && Complete(v, id, files).Ok?
    ensures var w := Complete(v, id, files).value.0;
            w.id == v.id && Valid(w) && Evolves(v, w) && AttachmentsOnDisk(w, files)
  {
    SetAttachmentKeeps(v, Complete(v, id, files).value.1);
  }

  lemma FewerOnDisk(v: Vault, w: Vault, files: Files)
    requires AttachmentsOnDisk(v, files) && w.id == v.id && forall a :: a in w.attachments ==> a in v.attachments
    ensures AttachmentsOnDisk(w, files)
  {}

  /** An operation on one vault leaves it valid, later in its life, with the
      attachments it keeps still whole. */
  lemma InVaultKeeps(v: Vault, op: VaultOp, files: Files, now: Time, opts: Options)
    requires Valid(v) && AttachmentsOnDisk(v, files)
    requires Precheck(InVault(v.id, op), opts).None?
    requires ApplyInVault(v, op, files, now, opts).Ok?
    ensures var w := ApplyInVault(v, op, files, now, opts).value.0;
            && w.id == v.id && Valid(w) && Evolves(v, w) && AttachmentsOnDisk(w, files)
    ensures Drops(op) ==> forall a :: a in ApplyInVault(v, op, files, now, opts).value.0.attachments ==> a in v.attachments
  {
    if OnRecords(op) {
      RecordOpKeeps(v, op, files, now, opts);
      FewerOnDisk(v, ApplyInVault(v, op, files, now, opts).value.0, files);
    } else if Drops(op) {
      DropOpKeeps(v, op, files, now, opts);
      FewerOnDisk(v, ApplyInVault(v, op, files, now, opts).value.0, files);
    } else if op.CreateAttachment? {
      AnnounceKeeps(v, op.create, files, now, opts);
    } else {
      CompleteKeeps(v, op.attachment, files);
    }
  }

  /** What a vault drops it no longer lists under any record. */
  lemma DroppedIds(v: Vault, w: Vault)
    requires Pairwise(v.attachments, Distinct) && w.id == v.id
    requires forall a :: a in w.attachments ==> a in v.attachments
    ensures forall b :: b in w.attachments ==> AttachmentDir(w.id, b.id) !in Dropped(v, w)
  {
    forall b | b in w.attachments ensures AttachmentDir(w.id, b.id) !in Dropped(v, w) {
      forall a | a in v.attachments && a.id == b.id ensures a in w.attachments {
        SameIdSameAttachment(v.attachments, a, b);
      }
    }
  }

  lemma SameIdSameAttachment(attachments: seq<Attachment>, a: Attachment, b: Attachment)
    requires Pairwise(attachments, Distinct) && a in attachments && b in attachments && a.id == b.id
    ensures a == b
  {
    forall x, y | 0 <= x < y < |attachments| ensures attachments[x].id != attachments[y].id {
      assert Distinct(attachments[x], attachments[y]);
    }
    var i :| 0 <= i < |attachments| && attachments[i] == a;
    var j :| 0 <= j < |attachments| && attachments[j] == b;
  }

  // ---- one operation --------------------------------------------------------------------

  ghost predicate StillThere(vaults: seq<Vault>, vaults': seq<Vault>, id: Uuid) {
    FindVault(vaults, id).Some? && FindVault(vaults', id).Some? ==>
      Evolves(FindVault(vaults, id).value, FindVault(vaults', id).value)
  }

  lemma EvolvesSelf(v: Vault)
    ensures Evolves(v, v)
  {
    forall id ensures SameOrNewer(v, v, id) {}
  }

  /** One vault replaced by its next state. */
  lemma ReplaceVault(vaults: seq<Vault>, files: Files, v: Vault, w: Vault)
    requires Holds(vaults, files) && FindVault(vaults, v.id) == Some(v) && w.id == v.id
    requires Valid(w) && Evolves(v, w) && AttachmentsOnDisk(w, files)
    ensures Holds(SetVault(vaults, w), files)
    ensures forall id :: StillThere(vaults, SetVault(vaults, w), id)
  {
    SetVaultLaws(vaults, w);
    forall x | x in SetVault(vaults, w) ensures Valid(x) && AttachmentsOnDisk(x, files) {
      InSetVault(vaults, w, x);
    }
    forall id ensures StillThere(vaults, SetVault(vaults, w), id) {
      FindSetVault(vaults, w, id);
      if id != v.id && FindVault(vaults, id).Some? { EvolvesSelf(FindVault(vaults, id).value); }
    }
  }

  lemma DroppedUnreferenced(vaults: seq<Vault>, v: Vault, w: Vault)
    requires Pairwise(vaults, VaultsApart) && Pairwise(v.attachments, Distinct) && w.id == v.id
    requires forall a :: a in w.attachments ==> a in v.attachments
    ensures Unreferenced(SetVault(vaults, w), Dropped(v, w))
  {
    DroppedIds(v, w);
    forall x, b | x in SetVault(vaults, w) && b in x.attachments ensures AttachmentDir(x.id, b.id) !in Dropped(v, w) {
      InSetVault(vaults, w, x);
    }
  }

  lemma ApplyInVaultShape(d: Disk, id: Uuid, op: VaultOp, now: Time, opts: Options, env: Env)
    requires Apply(d, InVault(id, op), now, opts, env).Ok?
    ensures FindVault(d.vaults, id).Some? && ApplyInVault(FindVault(d.vaults, id).value, op, d.files, now, opts).Ok?
    ensures var v, a := FindVault(d.vaults, id).value, Apply(d, InVault(id, op), now, opts, env).value;
            var w := ApplyInVault(v, op, d.files, now, opts).value.0;
            && a.vaults == SetVault(d.vaults, w) && a.files == d.files
            && a.removals == if Drops(op) then Dropped(v, w) else {}
  {}

  lemma InVaultHolds(vaults: seq<Vault>, files: Files, v: Vault, w: Vault, a: Applied)
    requires Holds(vaults, files) && FindVault(vaults, v.id) == Some(v) && w.id == v.id
    requires Valid(v) && Valid(w) && Evolves(v, w) && AttachmentsOnDisk(w, files)
    requires a.vaults == SetVault(vaults, w) && a.files == files
    requires a.removals == {} || (a.removals == Dropped(v, w) && forall x :: x in w.attachments ==> x in v.attachments)
    ensures ApplyHolds(Disk(vaults, files), a)
  {
    ReplaceVault(vaults, files, v, w);
    if a.removals != {} {
      DroppedUnreferenced(vaults, v, w);
    }
  }

  lemma ApplyInVaultHolds(d: Disk, id: Uuid, op: VaultOp, now: Time, opts: Options, env: Env)
    requires DiskValid(d) && Precheck(InVault(id, op), opts).None?
    requires Apply(d, InVault(id, op), now, opts, env).Ok?
    ensures ApplyHolds(d, Apply(d, InVault(id, op), now, opts, env).value)
  {
    ApplyInVaultShape(d, id, op, now, opts, env);
    var v := FindVault(d.vaults, id).value;
    InVaultKeeps(v, op, d.files, now, opts);
    InVaultHolds(d.vaults, d.files, v, ApplyInVault(v, op, d.files, now, opts).value.0, Apply(d, InVault(id, op), now, opts, env).value);
  }

  ghost predicate ApplyHolds(d: Disk, a: Applied) {
    && Holds(a.vaults, a.files)
    && Unreferenced(a.vaults, a.removals)
    && (forall id :: StillThere(d.vaults, a.vaults, id))
  }

  lemma CreateVaultHolds(d: Disk, id: Uuid, name: Blob, now: Time, opts: Options, env: Env)
    requires DiskValid(d) && Apply(d, CreateVault(id, name), now, opts, env).Ok?
    ensures ApplyHolds(d, Apply(d, CreateVault(id, name), now, opts, env).value)
  {
    var v := NewVault(id, Shared, name, now);
    PairwiseAppend(d.vaults, v, VaultsApart);
    forall x ensures StillThere(d.vaults, d.vaults + [v], x) {
      FindAppended(d.vaults, v, x);
      if FindVault(d.vaults, x).Some? { EvolvesSelf(FindVault(d.vaults, x).value); }
    }
  }

  lemma DeleteVaultHolds(d: Disk, id: Uuid, now: Time, opts: Options, env: Env)
    requires DiskValid(d) && Apply(d, DeleteVault(id), now, opts, env).Ok?
    ensures ApplyHolds(d, Apply(d, DeleteVault(id), now, opts, env).value)
  {
    var vaults := Filter(d.vaults, OtherVault(id));
    FilterPairwise(d.vaults, OtherVault(id), VaultsApart);
    forall x ensures StillThere(d.vaults, vaults, x) {
      FindFiltered(d.vaults, id, x);
      if FindVault(d.vaults, x).Some? { EvolvesSelf(FindVault(d.vaults, x).value); }
    }
  }

  /** A directory moved takes its chunks along and no other. */
  lemma MoveDirChunks(files: Files, id: Uuid, source: Uuid, target: Uuid, vault: Uuid, attachment: Uuid)
    requires source != target
    ensures var moved := MoveDir(files, id, source, target);
            && SameChunks(files, moved, source, target, id)
            && (attachment != id || (vault != source && vault != target) ==> SameChunks(files, moved, vault, vault, attachment))
  {
    var moved := MoveDir(files, id, source, target);
    assert moved.Keys == Relocated(files.Keys, id, source, target);
    forall index
      ensures var p, q := ChunkPath(source, id, index), ChunkPath(target, id, index);
              (p in files <==> q in moved) && (p in files ==> files[p] == moved[q])
    {
      assert ChunkPath(target, id, index).(vault := source) == ChunkPath(source, id, index);
    }
  }

  /** The record of an attachment under another item of its vault. */
  lemma MoveWithinHolds(d: Disk, v: Vault, id: Uuid, item: Uuid, env: Env)
    requires DiskValid(d) && FindVault(d.vaults, v.id) == Some(v) && Move(d, v.id, id, v.id, item, env).Ok?
    ensures ApplyHolds(d, Move(d, v.id, id, v.id, item, env).value)
  {
    var found := FindAttachment(v.attachments, id).value;
    var a := found.(itemId := item);
    SetAttachmentKeeps(v, a);
    SameChunksWhole(d.files, d.files, v.id, v.id, a);
    assert Whole(d.files, v.id, found) <==> Whole(d.files, v.id, a);
    ReplaceVault(d.vaults, d.files, v, v.(attachments := SetAttachment(v.attachments, a)));
  }

  /** The files after a move: those of the attachment are in the new place, or
      there were none; those of any other attachment did not move. */
  lemma MoveFiles(d: Disk, source: Uuid, id: Uuid, target: Uuid, item: Uuid, env: Env)
    requires source != target && Move(d, source, id, target, item, env).Ok?
    ensures FilesMoved(d.files, Move(d, source, id, target, item, env).value.files, source, target, id)
  {
    var r := Move(d, source, id, target, item, env).value;
    if r.moved.Some? {
      forall vault, attachment | attachment != id || (vault != source && vault != target)
        ensures SameChunks(d.files, r.files, vault, vault, attachment)
      {
        MoveDirChunks(d.files, id, source, target, vault, attachment);
      }
      MoveDirChunks(d.files, id, source, target, source, id);
    }
  }

  /** A complete attachment has chunks. */
  lemma WholeHasChunks(files: Files, vault: Uuid, a: Attachment)
    requires a.chunks >= 1 && Whole(files, vault, a)
    ensures HasChunks(files, vault, a.id)
  {
    CountMeansAll(files, vault, a.id, a.chunks);
    assert ChunkPath(vault, a.id, 0) in files;
  }

  lemma StayOnDisk(x: Vault, files: Files, files': Files)
    requires AttachmentsOnDisk(x, files)
    requires forall b :: b in x.attachments ==> SameChunks(files, files', x.id, x.id, b.id)
    ensures AttachmentsOnDisk(x, files')
  {
    forall b | b in x.attachments ensures b.chunks >= 1 && (b.complete ==> Whole(files', x.id, b)) {
      SameChunksWhole(files, files', x.id, x.id, b);
    }
  }

  /** The attachment that moved is as whole in its new place. */
  lemma ArrivesOnDisk(d: Disk, files: Files, v: Vault, t: Vault, id: Uuid, item: Uuid)
    requires DiskValid(d) && v in d.vaults && FilesMoved(d.files, files, v.id, t.id, id)
    requires FindAttachment(v.attachments, id).Some?
    ensures var a := FindAttachment(v.attachments, id).value.(itemId := item);
            a.chunks >= 1 && (a.complete ==> Whole(files, t.id, a))
  {
    var found := FindAttachment(v.attachments, id).value;
    if found.complete {
      WholeHasChunks(d.files, v.id, found);
      SameChunksWhole(d.files, files, v.id, t.id, found);
      assert Whole(files, t.id, found) <==> Whole(files, t.id, found.(itemId := item));
    }
  }

  /** The two vaults after a move from one to the other. */
  function Moved(v: Vault, t: Vault, id: Uuid, item: Uuid): (r: (Vault, Vault))
    requires FindAttachment(v.attachments, id).Some?
    ensures r.0.id == v.id && r.1.id == t.id
  {
    var a := FindAttachment(v.attachments, id).value.(itemId := item);
    (v.(attachments := Filter(v.attachments, NotAttachment(id))), t.(attachments := t.attachments + [a]))
  }

  /** The chunks of one attachment moved, or it had none; no others did. */
  ghost predicate FilesMoved(files: Files, files': Files, source: Uuid, target: Uuid, id: Uuid) {
    && (SameChunks(files, files', source, target, id) || !HasChunks(files, source, id))
    && (forall vault, attachment :: attachment != id || (vault != source && vault != target) ==>
          SameChunks(files, files', vault, vault, attachment))
  }

  lemma MovedOnDisk(d: Disk, files: Files, v: Vault, t: Vault, id: Uuid, item: Uuid)
    requires DiskValid(d) && v in d.vaults && t in d.vaults && v.id != t.id
    requires FilesMoved(d.files, files, v.id, t.id, id)
    requires FindAttachment(v.attachments, id).Some? && FindAttachment(t.attachments, id).None?
    ensures var (u, w) := Moved(v, t, id, item);
            && AttachmentsOnDisk(u, files) && AttachmentsOnDisk(w, files)
            && (forall x :: x in d.vaults && x.id != v.id && x.id != t.id ==> AttachmentsOnDisk(x, files))
  {
    var (u, w) := Moved(v, t, id, item);
    StayOnDisk(t, d.files, files);
    StayOnDisk(u, d.files, files);
    ArrivesOnDisk(d, files, v, t, id, item);
    forall x | x in d.vaults && x.id != v.id && x.id != t.id ensures AttachmentsOnDisk(x, files) {
      StayOnDisk(x, d.files, files);
    }
  }

  lemma MovedEvolve(d: Disk, v: Vault, t: Vault, id: Uuid, item: Uuid, env: Env)
    requires DiskValid(d) && v.id != t.id && Move(d, v.id, id, t.id, item, env).Ok?
    requires FindVault(d.vaults, v.id) == Some(v) && FindVault(d.vaults, t.id) == Some(t)
    ensures var (u, w) := Moved(v, t, id, item);
            Valid(u) && Valid(w) && Evolves(v, u) && Evolves(t, w)
  {
    AddAttachmentKeeps(t, FindAttachment(v.attachments, id).value.(itemId := item));
    KeepAttachments(v, NotAttachment(id));
  }

  /** Two vaults replaced at once. */
  lemma ReplaceTwo(vaults: seq<Vault>, files: Files, files': Files, v: Vault, u: Vault, t: Vault, w: Vault)
    requires Holds(vaults, files) && v.id != t.id && u.id == v.id && w.id == t.id
    requires FindVault(vaults, v.id) == Some(v) && FindVault(vaults, t.id) == Some(t)
    requires Valid(u) && Valid(w) && Evolves(v, u) && Evolves(t, w)
    requires AttachmentsOnDisk(u, files') && AttachmentsOnDisk(w, files')
    requires forall x :: x in vaults && x.id != v.id && x.id != t.id ==> AttachmentsOnDisk(x, files')
    ensures Holds(SetVault(SetVault(vaults, w), u), files')
    ensures forall id :: StillThere(vaults, SetVault(SetVault(vaults, w), u), id)
  {
    var between := SetVault(vaults, w);
    SetVaultLaws(vaults, w);
    SetVaultLaws(between, u);
    forall x | x in SetVault(between, u) ensures Valid(x) && AttachmentsOnDisk(x, files') {
      InSetVault(between, u, x);
      if x != u { InSetVault(vaults, w, x); }
    }
    forall id ensures StillThere(vaults, SetVault(between, u), id) {
      FindSetVault(vaults, w, id);
      FindSetVault(between, u, id);
      if FindVault(vaults, id).Some? { EvolvesSelf(FindVault(vaults, id).value); }
    }
  }

  lemma MoveAcrossHolds(d: Disk, v: Vault, t: Vault, id: Uuid, item: Uuid, env: Env)
    requires DiskValid(d) && v.id != t.id && Move(d, v.id, id, t.id, item, env).Ok?
    requires FindVault(d.vaults, v.id) == Some(v) && FindVault(d.vaults, t.id) == Some(t)
    ensures ApplyHolds(d, Move(d, v.id, id, t.id, item, env).value)
  {
    var a := Move(d, v.id, id, t.id, item, env).value;
    MoveShape(d, v, t, id, item, env);
    MoveFiles(d, v.id, id, t.id, item, env);
    MovedEvolve(d, v, t, id, item, env);
    MovedHolds(d, a.files, v, t, id, item);
  }

  lemma MoveShape(d: Disk, v: Vault, t: Vault, id: Uuid, item: Uuid, env: Env)
    requires v.id != t.id && Move(d, v.id, id, t.id, item, env).Ok?
    requires FindVault(d.vaults, v.id) == Some(v) && FindVault(d.vaults, t.id) == Some(t)
    ensures FindAttachment(v.attachments, id).Some? && FindAttachment(t.attachments, id).None?
    ensures var a := Move(d, v.id, id, t.id, item, env).value; var (u, w) := Moved(v, t, id, item);
            a.vaults == SetVault(SetVault(d.vaults, w), u) && a.removals == {}
  {}

  lemma MovedHolds(d: Disk, files: Files, v: Vault, t: Vault, id: Uuid, item: Uuid)
    requires DiskValid(d) && v.id != t.id
    requires FindVault(d.vaults, v.id) == Some(v) && FindVault(d.vaults, t.id) == Some(t)
    requires FindAttachment(v.attachments, id).Some? && FindAttachment(t.attachments, id).None?
    requires FilesMoved(d.files, files, v.id, t.id, id)
    requires var (u, w) := Moved(v, t, id, item); Valid(u) && Valid(w) && Evolves(v, u) && Evolves(t, w)
    ensures var (u, w) := Moved(v, t, id, item);
            && Holds(SetVault(SetVault(d.vaults, w), u), files)
            && forall x :: StillThere(d.vaults, SetVault(SetVault(d.vaults, w), u), x)
  {
    var (u, w) := Moved(v, t, id, item);
    MovedOnDisk(d, files, v, t, id, item);
    ReplaceTwo(d.vaults, d.files, files, v, u, t, w);
  }

  lemma MoveHolds(d: Disk, source: Uuid, id: Uuid, target: Uuid, item: Uuid, env: Env)
    requires DiskValid(d) && Move(d, source, id, target, item, env).Ok?
    ensures ApplyHolds(d, Move(d, source, id, target, item, env).value)
  {
    var v, t := FindVault(d.vaults, source).value, FindVault(d.vaults, target).value;
    if source == target {
      MoveWithinHolds(d, v, id, item, env);
    } else {
      MoveAcrossHolds(d, v, t, id, item, env);
    }
  }

  lemma OperationHolds(d: Disk, op: Op, now: Time, opts: Options, env: Env)
    requires DiskValid(d) && Precheck(op, opts).None? && Apply(d, op, now, opts, env).Ok?
    ensures ApplyHolds(d, Apply(d, op, now, opts, env).value)
  {
    match op
    case CreateVault(id, name) => CreateVaultHolds(d, id, name, now, opts, env);
    case DeleteVault(id) => DeleteVaultHolds(d, id, now, opts, env);
    case InVault(id, inner) => ApplyInVaultHolds(d, id, inner, now, opts, env);
    case MoveAttachment(id, attachment, target, item) => MoveHolds(d, id, attachment, target, item, env);
  }

  // ---- pruning and clean-up -----------------------------------------------------------

  lemma CleanupKeeps(files: Files, removals: set<Removal>, leftover: set<ChunkPath>, vault: Uuid, attachment: Uuid)
    requires VaultDir(vault) !in removals && AttachmentDir(vault, attachment) !in removals
    ensures SameChunks(files, Cleanup(files, removals, leftover), vault, vault, attachment)
  {}

  lemma PruneHolds(vaults: seq<Vault>, files: Files, removals: set<Removal>, leftover: set<ChunkPath>, now: Time, opts: Options)
    requires Holds(vaults, files) && Unreferenced(vaults, removals)
    ensures Holds(PruneAll(vaults, now, opts),
                  Cleanup(files, removals + PruneRemovals(vaults, now, opts), leftover))
    ensures forall id :: StillThere(vaults, PruneAll(vaults, now, opts), id)
  {
    var pruned := PruneAll(vaults, now, opts);
    var all := removals + PruneRemovals(vaults, now, opts);
    var kept := Cleanup(files, all, leftover);
    forall i, j | 0 <= i < j < |pruned| ensures VaultsApart(pruned[i], pruned[j]) {
      assert VaultsApart(vaults[i], vaults[j]);
    }
    forall x | x in pruned ensures Valid(x) && AttachmentsOnDisk(x, kept) {
      var i :| 0 <= i < |pruned| && pruned[i] == x;
      var v := vaults[i];
      PruneKeeps(v, now, opts);
      forall b | b in x.attachments ensures b.chunks >= 1 && (b.complete ==> Whole(kept, x.id, b)) {
        PrunedUnreferenced(vaults, v, removals, now, opts, b);
        CleanupKeeps(files, all, leftover, v.id, b.id);
        SameChunksWhole(files, kept, v.id, v.id, b);
      }
    }
    forall id ensures StillThere(vaults, pruned, id) {
      FindPruned(vaults, now, opts, id);
      if FindVault(vaults, id).Some? { PruneKeeps(FindVault(vaults, id).value, now, opts); }
    }
  }

  lemma PrunedUnreferenced(vaults: seq<Vault>, v: Vault, removals: set<Removal>, now: Time, opts: Options, b: Attachment)
    requires Pairwise(vaults, VaultsApart) && Unreferenced(vaults, removals)
    requires v in vaults && Valid(v) && b in Prune(v, now, opts).attachments
    ensures VaultDir(v.id) !in removals + PruneRemovals(vaults, now, opts)
    ensures AttachmentDir(v.id, b.id) !in removals + PruneRemovals(vaults, now, opts)
  {
    DroppedIds(v, Prune(v, now, opts));
    FindVaultUnique(vaults, v);
    forall u | u in vaults && AttachmentDir(v.id, b.id) in Dropped(u, Prune(u, now, opts)) ensures u == v {
      FindVaultUnique(vaults, u);
    }
  }

  lemma WriteIsApplyThenPrune(d: Disk, op: Op, now: Time, opts: Options, env: Env)
    requires Write(d, op, now, opts, env).1.Ok?
    ensures Precheck(op, opts).None? && Apply(d, op, now, opts, env).Ok?
    ensures Write(d, op, now, opts, env).0.vaults == PruneAll(Apply(d, op, now, opts, env).value.vaults, now, opts)
  {}

  // ---- theorems -------------------------------------------------------------------------

  /** Every write keeps the store valid, and every vault that is there before
      and after has only moved on in its life. */
  lemma WriteKeeps(d: Disk, op: Op, now: Time, opts: Options, env: Env)
    requires DiskValid(d)
    ensures DiskValid(Write(d, op, now, opts, env).0)
    ensures forall id :: StillThere(d.vaults, Write(d, op, now, opts, env).0.vaults, id)
  {
    var (d', r) := Write(d, op, now, opts, env);
    if r.Err? {
      FailureChangesNothing(d, op, now, opts, env);
      forall id ensures StillThere(d.vaults, d'.vaults, id) {
        if FindVault(d.vaults, id).Some? { EvolvesSelf(FindVault(d.vaults, id).value); }
      }
    } else {
      var a := Apply(d, op, now, opts, env).value;
      OperationHolds(d, op, now, opts, env);
      PruneHolds(a.vaults, a.files, a.removals, env.leftover, now, opts);
      forall id ensures StillThere(d.vaults, d'.vaults, id) {
        assert StillThere(d.vaults, a.vaults, id) && StillThere(a.vaults, d'.vaults, id);
        FindPruned(a.vaults, now, opts, id);
        if FindVault(d.vaults, id).Some? && FindVault(d'.vaults, id).Some? {
          EvolvesTransitive(FindVault(d.vaults, id).value, FindVault(a.vaults, id).value, FindVault(d'.vaults, id).value);
        }
      }
    }
  }

  lemma OtherStaysWhole(d: Disk, files: Files, v: Vault, a: Attachment, x: Vault, b: Attachment, p: ChunkPath, size: nat)
    requires Pairwise(d.vaults, VaultsApart) && v in d.vaults && x in d.vaults
    requires Pairwise(v.attachments, Distinct) && a in v.attachments && !a.complete && b in x.attachments && b.complete
    requires p.vault == v.id && p.attachment == a.id && files == d.files[p := size] && Whole(d.files, x.id, b)
    ensures Whole(files, x.id, b)
  {
    FindVaultUnique(d.vaults, x);
    FindVaultUnique(d.vaults, v);
    if x.id == v.id && b.id == a.id {
      SameIdSameAttachment(v.attachments, b, a);
      assert false;
    }
    assert SameChunks(d.files, files, x.id, x.id, b.id);
    SameChunksWhole(d.files, files, x.id, x.id, b);
  }

  /** A chunk written to an attachment that is not complete touches no
      attachment that is. */
  lemma PutChunkKeeps(d: Disk, vault: Uuid, id: Uuid, index: int, size: nat, env: Env)
    requires DiskValid(d)
    ensures DiskValid(PutChunk(d, vault, id, index, size, env).0)
    ensures PutChunk(d, vault, id, index, size, env).0.vaults == d.vaults
    ensures PutChunk(d, vault, id, index, size, env).1.Err? ==> PutChunk(d, vault, id, index, size, env).0 == d
  {
    var (d', r) := PutChunk(d, vault, id, index, size, env);
    if r.Ok? {
      var v := FindVault(d.vaults, vault).value;
      var a := FindAttachment(v.attachments, id).value;
      forall x, b | x in d.vaults && b in x.attachments && b.complete ensures Whole(d'.files, x.id, b) {
        OtherStaysWhole(d, d'.files, v, a, x, b, ChunkPath(vault, id, index), size);
      }
    }
  }

  // ---- runs -----------------------------------------------------------------------------

  datatype Event =
    | Operation(op: Op, now: Time, env: Env)
    | Chunk(vault: Uuid, attachment: Uuid, index: int, size: nat, env: Env)

  function Step(d: Disk, e: Event, opts: Options): Disk {
    match e
    case Operation(op, now, env) => Write(d, op, now, opts, env).0
    case Chunk(v, a, i, n, env) => PutChunk(d, v, a, i, n, env).0
  }

  function Run(d: Disk, events: seq<Event>, opts: Options): Disk {
    if events == [] then d else Step(Run(d, events[..|events| - 1], opts), events[|events| - 1], opts)
  }

  /** A store as it is created: one personal vault, nothing in it. */
  function Created(personal: Uuid, nameEnc: Blob, now: Time): Disk {
    Disk([NewVault(personal, Personal, nameEnc, now)], map[])
  }

  /** The vault is in the store before, after, and all along the run. */
  ghost predicate Survives(d: Disk, events: seq<Event>, opts: Options, id: Uuid) {
    forall k :: 0 <= k <= |events| ==> FindVault(Run(d, events[..k], opts).vaults, id).Some?
  }

  lemma {:induction false} RunKeeps(d: Disk, events: seq<Event>, opts: Options)
    requires DiskValid(d)
    ensures DiskValid(Run(d, events, opts))
  {
    if events != [] {
      var before := Run(d, events[..|events| - 1], opts);
      RunKeeps(d, events[..|events| - 1], opts);
      match events[|events| - 1]
      case Operation(op, now, env) => WriteKeeps(before, op, now, opts, env);
      case Chunk(v, a, i, n, env) => PutChunkKeeps(before, v, a, i, n, env);
    }
  }

  /** Over any run of any operations, failing or not, with any clock, a vault
      that is never deleted evolves. */
  lemma {:induction false} RunEvolves(d: Disk, events: seq<Event>, opts: Options, id: Uuid)
    requires DiskValid(d) && Survives(d, events, opts, id)
    ensures var d' := Run(d, events, opts);
            && FindVault(d.vaults, id).Some? && FindVault(d'.vaults, id).Some?
            && Evolves(FindVault(d.vaults, id).value, FindVault(d'.vaults, id).value)
  {
    SurvivesEnds(d, events, opts, id);
    if events == [] {
      EvolvesSelf(FindVault(d.vaults, id).value);
    } else {
      var front, e := events[..|events| - 1], events[|events| - 1];
      SurvivesFront(d, events, opts, id);
      RunEvolves(d, front, opts, id);
      RunKeeps(d, front, opts);
      LaterStep(FindVault(d.vaults, id).value, Run(d, front, opts), e, opts, id);
    }
  }

  lemma SurvivesEnds(d: Disk, events: seq<Event>, opts: Options, id: Uuid)
    requires Survives(d, events, opts, id)
    ensures FindVault(d.vaults, id).Some? && FindVault(Run(d, events, opts).vaults, id).Some?
  {
    assert events[..0] == [] && events[..|events|] == events;
    assert FindVault(Run(d, events[..0], opts).vaults, id).Some?;
    assert FindVault(Run(d, events[..|events|], opts).vaults, id).Some?;
  }

  lemma SurvivesFront(d: Disk, events: seq<Event>, opts: Options, id: Uuid)
    requires Survives(d, events, opts, id) && events != []
    ensures Survives(d, events[..|events| - 1], opts, id)
  {
    var n := |events| - 1;
    forall k | 0 <= k <= n ensures FindVault(Run(d, events[..n][..k], opts).vaults, id).Some? {
      assert events[..n][..k] == events[..k];
    }
  }

  lemma LaterStep(v: Vault, before: Disk, e: Event, opts: Options, id: Uuid)
    requires DiskValid(before) && FindVault(before.vaults, id).Some? && FindVault(Step(before, e, opts).vaults, id).Some?
    requires Evolves(v, FindVault(before.vaults, id).value)
    ensures Evolves(v, FindVault(Step(before, e, opts).vaults, id).value)
  {
    StepEvolves(before, e, opts, id);
    EvolvesTransitive(v, FindVault(before.vaults, id).value, FindVault(Step(before, e, opts).vaults, id).value);
  }

  lemma StepEvolves(d: Disk, e: Event, opts: Options, id: Uuid)
    requires DiskValid(d) && FindVault(d.vaults, id).Some? && FindVault(Step(d, e, opts).vaults, id).Some?
    ensures Evolves(FindVault(d.vaults, id).value, FindVault(Step(d, e, opts).vaults, id).value)
  {
    match e
    case Operation(op, now, env) =>
      WriteKeeps(d, op, now, opts, env);
      assert StillThere(d.vaults, Write(d, op, now, opts, env).0.vaults, id);
    case Chunk(v, a, i, n, env) =>
      PutChunkKeeps(d, v, a, i, n, env);
      EvolvesSelf(FindVault(d.vaults, id).value);
  }

  /** In every state a store can reach: unique vaults, each valid, and every
      complete attachment whole on disk. */
  lemma ReachableValid(personal: Uuid, nameEnc: Blob, created: Time, events: seq<Event>, opts: Options)
    ensures DiskValid(Run(Created(personal, nameEnc, created), events, opts))
  {
    RunKeeps(Created(personal, nameEnc, created), events, opts);
  }

  /** Delta sync over whole runs: what a client read of a vault, brought up to
      date by the changes since that revision, is what it would read now. */
  lemma DeltaSyncOverRuns(d: Disk, events: seq<Event>, opts: Options, id: Uuid)
    requires DiskValid(d) && Survives(d, events, opts, id)
    ensures FindVault(d.vaults, id).Some? && FindVault(Run(d, events, opts).vaults, id).Some?
    ensures var v := FindVault(d.vaults, id).value;
            var w := FindVault(Run(d, events, opts).vaults, id).value;
            Sync.Apply(Sync.Live(v), Sync.Items(w, Some(v.revision)).items) == Sync.Live(w)
  {
    RunEvolves(d, events, opts, id);
    RunKeeps(d, events, opts);
    var v, w := FindVault(d.vaults, id).value, FindVault(Run(d, events, opts).vaults, id).value;
    Sync.DeltaSync(v, w, v.revision);
  }
}
