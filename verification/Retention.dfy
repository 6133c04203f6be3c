/** The trash, and why the pruning done at every write cannot be seen. */
module Retention {
  import opened Wrappers
  import opened Seqs
  import opened Text
  import opened Crypto
  import opened VaultModel
  import opened VaultLaws
  import History

  datatype TrashedItem = TrashedItem(
    itemId: Uuid, itemType: string, revision: int, ciphertext: Blob, deletedAt: Time, expiresAt: Time)

  /** The most recent, and the last of those when there are several. */
  function MostRecent(versions: seq<Version>): Option<Version> {
    if versions == [] then None
    else
      var best := MostRecent(versions[..|versions| - 1]);
      var last := versions[|versions| - 1];
      if best.Some? && best.value.revision > last.revision then best else Some(last)
  }

  /** The line of the trash for one item record, if it is there at `now`. */
  function TrashEntry(v: Vault, i: Item, now: Time, opts: Options): Option<TrashedItem> {
    if i.deletedAt.None? || i.deletedAt.value <= Limit(now, opts) then None
    else
      var last := MostRecent(VersionsOf(v, i.id));
      if last.None? then None
      else Some(TrashedItem(i.id, last.value.itemType, last.value.revision, last.value.ciphertext,
                            i.deletedAt.value, i.deletedAt.value + 86400 * opts.trashDays))
  }

  function TrashEntries(v: Vault, items: seq<Item>, now: Time, opts: Options): seq<TrashedItem> {
    if items == [] then []
    else
      var e := TrashEntry(v, items[0], now, opts);
      (if e.Some? then [e.value] else []) + TrashEntries(v, items[1..], now, opts)
  }

  function LatestDeletion(): TrashedItem -> int { (t: TrashedItem) => -t.deletedAt }

  function Trash(v: Vault, now: Time, opts: Options): seq<TrashedItem> {
    SortBy(TrashEntries(v, v.items, now, opts), LatestDeletion())
  }

  // ---- what the trash shows ---------------------------------------------------------

  lemma {:induction false} LastIsMostRecent(s: seq<Version>)
    requires Pairwise(s, History.Older)
    ensures s == [] ==> MostRecent(s).None?
    ensures s != [] ==> MostRecent(s) == Some(s[|s| - 1])
  {
    if |s| > 1 {
      var front := s[..|s| - 1];
      assert forall i, j :: 0 <= i < j < |front| ==> History.Older(s[i], s[j]) && front[i] == s[i] && front[j] == s[j];
      LastIsMostRecent(front);
      assert History.Older(s[|s| - 2], s[|s| - 1]);
    }
  }

  lemma {:induction false} InTrashEntries(v: Vault, items: seq<Item>, now: Time, opts: Options, t: TrashedItem)
    ensures t in TrashEntries(v, items, now, opts) <==>
            exists i :: i in items && TrashEntry(v, i, now, opts) == Some(t)
  {
    if items != [] {
      InTrashEntries(v, items[1..], now, opts, t);
      assert forall i :: i in items <==> i == items[0] || i in items[1..];
    }
  }

  /** Deleted less than `trashDays` ago, with a version left. */
  predicate InTrash(v: Vault, i: Item, now: Time, opts: Options) {
    i.deletedAt.Some? && now < i.deletedAt.value + 86400 * opts.trashDays && VersionsOf(v, i.id) != []
  }

  /** An item of the trash, shown as the last version of its history. */
  function Shown(v: Vault, i: Item, opts: Options): TrashedItem
    requires i.deletedAt.Some? && VersionsOf(v, i.id) != []
  {
    var history := VersionsOf(v, i.id);
    var last := history[|history| - 1];
    TrashedItem(i.id, last.itemType, last.revision, last.ciphertext, i.deletedAt.value,
                i.deletedAt.value + 86400 * opts.trashDays)
  }

  lemma EntryMeans(v: Vault, i: Item, now: Time, opts: Options)
    requires Pairwise(v.versions, Before)
    ensures TrashEntry(v, i, now, opts) == if InTrash(v, i, now, opts) then Some(Shown(v, i, opts)) else None
  {
    History.OwnVersionsOlder(v.versions, i.id);
    LastIsMostRecent(VersionsOf(v, i.id));
  }

  /** The trash lists the items deleted less than `trashDays` days ago that still
      have a version, each with its latest one, until the date it announces. */
  lemma TrashMeans(v: Vault, now: Time, opts: Options, t: TrashedItem)
    requires Valid(v)
    ensures t in Trash(v, now, opts) <==>
            exists i :: i in v.items && InTrash(v, i, now, opts) && t == Shown(v, i, opts)
    ensures t in Trash(v, now, opts) ==> now < t.expiresAt
  {
    SameMembers(TrashEntries(v, v.items, now, opts), Trash(v, now, opts));
    InTrashEntries(v, v.items, now, opts, t);
    forall i ensures TrashEntry(v, i, now, opts) == if InTrash(v, i, now, opts) then Some(Shown(v, i, opts)) else None {
      EntryMeans(v, i, now, opts);
    }
  }

  lemma {:induction false} EntriesOnce(v: Vault, items: seq<Item>, now: Time, opts: Options)
    requires Pairwise(items, Apart)
    ensures Pairwise(TrashEntries(v, items, now, opts), OtherItem())
  {
    if items != [] {
      PairwiseTail(items, Apart);
      EntriesOnce(v, items[1..], now, opts);
      forall t | t in TrashEntries(v, items[1..], now, opts) ensures t.itemId != items[0].id {
        InTrashEntries(v, items[1..], now, opts, t);
        var i :| i in items[1..] && TrashEntry(v, i, now, opts) == Some(t);
        var k :| 0 <= k < |items[1..]| && items[1..][k] == i;
        assert Apart(items[0], items[k + 1]);
      }
    }
  }

  function OtherItem(): (TrashedItem, TrashedItem) -> bool { (a: TrashedItem, b: TrashedItem) => a.itemId != b.itemId }

  function ItemOf(): TrashedItem -> Uuid { (t: TrashedItem) => t.itemId }

  /** Each item once, the last deleted first. */
  lemma TrashIsSorted(v: Vault, now: Time, opts: Options)
    requires Valid(v)
    ensures var trash := Trash(v, now, opts);
            forall i, j :: 0 <= i < j < |trash| ==>
              trash[i].itemId != trash[j].itemId && trash[i].deletedAt >= trash[j].deletedAt
  {
    var entries, trash := TrashEntries(v, v.items, now, opts), Trash(v, now, opts);
    EntriesOnce(v, v.items, now, opts);
    forall i, j | 0 <= i < j < |entries| ensures ItemOf()(entries[i]) != ItemOf()(entries[j]) {
      assert OtherItem()(entries[i], entries[j]);
    }
    DistinctPermuted(entries, trash, ItemOf());
    SortBySorted(entries, LatestDeletion());
    forall i, j | 0 <= i < j < |trash|
      ensures trash[i].itemId != trash[j].itemId && trash[i].deletedAt >= trash[j].deletedAt
    {
      assert ItemOf()(trash[i]) != ItemOf()(trash[j]);
      assert LatestDeletion()(trash[i]) <= LatestDeletion()(trash[j]);
    }
  }

  // ---- pruning ----------------------------------------------------------------------

  /** An item deleted for more than `trashDays` days loses all its versions;
      any other keeps its whole history. */
  lemma PruneKeepsHistory(v: Vault, i: Item, now: Time, opts: Options)
    requires Valid(v) && i in v.items
    ensures VersionsOf(Prune(v, now, opts), i.id)
            == if i.deletedAt.Some? && now > i.deletedAt.value + 86400 * opts.trashDays then [] else VersionsOf(v, i.id)
  {
    FindUnique(v.items, i);
    History.ExpiredMeans(v, i.id, now, opts);
    History.DropQueue(v.versions, ExpiredIds(v, now, opts), i.id);
  }

  /** An attachment goes when it is more than a day old and was never completed,
      or its item is gone or deleted for `trashDays` days; the others stay. */
  lemma PruneKeepsAttachments(v: Vault, a: Attachment, now: Time, opts: Options)
    ensures a in Prune(v, now, opts).attachments <==>
            a in v.attachments
            && (now <= a.createdAt + 86400
                || (a.complete && exists i :: i in v.items && i.id == a.itemId
                                              && (i.deletedAt.Some? ==> now < i.deletedAt.value + 86400 * opts.trashDays)))
  {
    assert a.itemId in RestorableIds(v, now, opts) <==>
           exists i :: i in v.items && i.id == a.itemId && (i.deletedAt.Some? ==> now < i.deletedAt.value + 86400 * opts.trashDays);
  }

  lemma {:induction false} SameEntries(v: Vault, w: Vault, items: seq<Item>, now: Time, opts: Options)
    requires forall i :: i in items ==> TrashEntry(v, i, now, opts) == TrashEntry(w, i, now, opts)
    ensures TrashEntries(v, items, now, opts) == TrashEntries(w, items, now, opts)
  {
    if items != [] {
      SameEntries(v, w, items[1..], now, opts);
    }
  }

  /** Pruning cannot be seen: from then on the trash is what it would have
      been; live and trashed items keep their history and their complete
      attachments; no item record changes. */
  lemma PruneIsInvisible(v: Vault, now: Time, later: Time, opts: Options)
    requires Valid(v) && now <= later
    ensures var w := Prune(v, now, opts);
            && Trash(w, later, opts) == Trash(v, later, opts)
            && w.items == v.items
            && (forall i :: i in v.items && i.Live() ==> VersionsOf(w, i.id) == VersionsOf(v, i.id))
            && (forall i, a :: i in v.items && a in v.attachments && a.complete && a.itemId == i.id
                               && (i.deletedAt.Some? ==> now < i.deletedAt.value + 86400 * opts.trashDays)
                               ==> a in w.attachments)
  {
    var w := Prune(v, now, opts);
    forall i | i in v.items ensures TrashEntry(w, i, later, opts) == TrashEntry(v, i, later, opts) {
      if i.deletedAt.Some? && later < i.deletedAt.value + 86400 * opts.trashDays {
        PruneKeepsHistory(v, i, now, opts);
      }
    }
    SameEntries(w, v, v.items, later, opts);
    forall i | i in v.items && i.Live() ensures VersionsOf(w, i.id) == VersionsOf(v, i.id) {
      PruneKeepsHistory(v, i, now, opts);
    }
  }

  /** Pruning now and again later is pruning later. */
  lemma PruningsCompose(v: Vault, now: Time, later: Time, opts: Options)
    requires now <= later
    ensures Prune(Prune(v, now, opts), later, opts) == Prune(v, later, opts)
  {
    var w := Prune(v, now, opts);
    assert ExpiredIds(v, now, opts) <= ExpiredIds(v, later, opts) == ExpiredIds(w, later, opts);
    FilterTwice(v.versions, NotOf(ExpiredIds(v, now, opts)), NotOf(ExpiredIds(v, later, opts)), NotOf(ExpiredIds(v, later, opts)));
    assert RestorableIds(w, later, opts) == RestorableIds(v, later, opts) <= RestorableIds(v, now, opts);
    FilterTwice(v.attachments, NotStale(v, now, opts), NotStale(w, later, opts), NotStale(v, later, opts));
  }

  /** Once out of the trash by purging, an item does not come back in it. */
  lemma PurgedIsGone(v: Vault, id: Uuid, later: Time, opts: Options)
    requires Valid(v) && Purge(v, id).Ok?
    ensures var w := Purge(v, id).value;
            && VersionsOf(w, id) == []
            && (forall t :: t in Trash(w, later, opts) ==> t.itemId != id)
            && (forall a :: a in w.attachments <==> a in v.attachments && a.itemId != id)
            && (forall other :: other != id ==> VersionsOf(w, other) == VersionsOf(v, other))
  {
    var w := Purge(v, id).value;
    PurgeKeeps(v, id);
    forall other ensures VersionsOf(w, other) == if other == id then [] else VersionsOf(v, other) {
      History.DropQueue(v.versions, {id}, other);
    }
    forall t | t in Trash(w, later, opts) ensures t.itemId != id {
      TrashMeans(w, later, opts, t);
    }
  }

  /** Purging finds something exactly when the item is deleted and still has a
      version: a live item is never purged. */
  lemma PurgeAccepted(v: Vault, id: Uuid)
    requires Valid(v)
    ensures Purge(v, id).Ok? <==>
            Find(v.items, id).Some? && !Find(v.items, id).value.Live() && VersionsOf(v, id) != []
  {
    SplitLengths(v.versions, id);
  }

  lemma {:induction false} SplitLengths(versions: seq<Version>, id: Uuid)
    ensures |Filter(versions, NotOf({id}))| + |Filter(versions, OfItem(id))| == |versions|
  {
    if versions != [] {
      SplitLengths(versions[1..], id);
    }
  }
}
