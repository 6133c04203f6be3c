/** The history of an item is a bounded queue: whatever the run, what the
    store keeps of an item is the last `itemHistory` versions recorded for it
    since it was last purged or expired. */
module History {
  import opened Wrappers
  import opened Seqs
  import opened Text
  import opened Crypto
  import opened VaultModel
  import opened VaultLaws
  import opened LocalStore
  import opened LocalStoreLaws
  import Sync

  // ---- three ways to trim -----------------------------------------------------------

  function RevisionOf(): Version -> int { (ver: Version) => ver.revision }

  function Negated(): int -> int { (n: int) => -n }

  function Above(n: int): int -> bool { (m: int) => m > n }

  function CountAbove(s: seq<int>, n: int): nat { |Filter(s, Above(n))| }

  /** The revisions kept of an item, most recent first. */
  function Descending(versions: seq<Version>, id: Uuid): seq<int> {
    SortBy(Map(Filter(versions, OfItem(id)), RevisionOf()), Negated())
  }

  function AtLeast(id: Uuid, oldest: int): Version -> bool {
    (ver: Version) => ver.itemId != id || ver.revision >= oldest
  }

  function AmongRevisions(id: Uuid, revisions: seq<int>): Version -> bool {
    (ver: Version) => ver.itemId != id || ver.revision in revisions
  }

  /** The local store: keep what is at least as recent as the keep-th. */
  function TrimByThreshold(versions: seq<Version>, id: Uuid, keep: nat): seq<Version>
    requires keep > 0
  {
    var revisions := Descending(versions, id);
    if |revisions| > keep then Filter(versions, AtLeast(id, revisions[keep - 1])) else versions
  }

  /** The server: delete what is NOT IN the keep most recent revisions. */
  function TrimByTopRevisions(versions: seq<Version>, id: Uuid, keep: nat): seq<Version> {
    var revisions := Descending(versions, id);
    Filter(versions, AmongRevisions(id, if |revisions| > keep then revisions[..keep] else revisions))
  }

  /** In a descending sequence, fewer than `k` are above `n` exactly when the
      k-th is not. */
  lemma {:induction false} RankInDescending(r: seq<int>, n: int, k: nat)
    requires SortedBy(r, Negated()) && 0 < k <= |r|
    ensures CountAbove(r, n) < k <==> n >= r[k - 1]
  {
    assert Negated()(r[0]) <= Negated()(r[k - 1]);
    if n >= r[0] {
      forall m | m in r ensures !Above(n)(m) {
        var i :| 0 <= i < |r| && r[i] == m;
        assert Negated()(r[0]) <= Negated()(r[i]);
      }
      FilterNone(r, Above(n));
    } else if k > 1 {
      RankInDescending(r[1..], n, k - 1);
    }
  }

  /** How many versions of an item are newer, counted in its revisions. */
  lemma NewerIsCount(versions: seq<Version>, id: Uuid, n: int)
    ensures Newer(versions, id, n) == CountAbove(Descending(versions, id), n)
  {
    var mine := Filter(versions, OfItem(id));
    FilterTwice(versions, OfItem(id), NewerThan(id, n), NewerThan(id, n));
    CountMapped(mine, id, n);
    CountPermuted(Map(mine, RevisionOf()), Descending(versions, id), Above(n));
  }

  lemma {:induction false} CountMapped(mine: seq<Version>, id: Uuid, n: int)
    requires forall ver :: ver in mine ==> ver.itemId == id
    ensures |Filter(mine, NewerThan(id, n))| == CountAbove(Map(mine, RevisionOf()), n)
  {
    if mine != [] {
      CountMapped(mine[1..], id, n);
      assert Map(mine, RevisionOf())[1..] == Map(mine[1..], RevisionOf());
      assert mine[0] in mine;
    }
  }

  lemma OneIsNotAboveItself(r: seq<int>, n: int)
    requires n in r
    ensures CountAbove(r, n) < |r|
  {
    var j :| 0 <= j < |r| && r[j] == n;
    assert r == r[..j] + ([n] + r[j + 1..]);
    FilterConcat(r[..j], [n] + r[j + 1..], Above(n));
    FilterConcat([n], r[j + 1..], Above(n));
  }

  /** The local trim, the server's trim and "fewer than `keep` newer ones" say
      the same of every history, whatever its revisions. */
  lemma TrimsAgree(versions: seq<Version>, id: Uuid, keep: nat)
    requires keep > 0
    ensures TrimByThreshold(versions, id, keep) == Filter(versions, AmongLast(versions, id, keep))
    ensures TrimByTopRevisions(versions, id, keep) == Filter(versions, AmongLast(versions, id, keep))
  {
    var revisions := Descending(versions, id);
    var unsorted := Map(Filter(versions, OfItem(id)), RevisionOf());
    SortBySorted(unsorted, Negated());
    SameMembers(unsorted, revisions);
    var top := if |revisions| > keep then revisions[..keep] else revisions;
    forall ver | ver in versions
      ensures AmongRevisions(id, top)(ver) <==> AmongLast(versions, id, keep)(ver)
      ensures AmongLast(versions, id, keep)(ver) <==> |revisions| <= keep || AtLeast(id, revisions[keep - 1])(ver)
    {
      if ver.itemId == id {
        NewerIsCount(versions, id, ver.revision);
        InRevisions(versions, id, ver);
        if |revisions| > keep {
          RankInDescending(revisions, ver.revision, keep);
          TopOfDescending(revisions, ver.revision, keep);
        } else {
          OneIsNotAboveItself(revisions, ver.revision);
        }
      }
    }
    FilterAgree(versions, AmongRevisions(id, top), AmongLast(versions, id, keep));
    if |revisions| > keep {
      FilterAgree(versions, AtLeast(id, revisions[keep - 1]), AmongLast(versions, id, keep));
    } else {
      FilterAll(versions, AmongLast(versions, id, keep));
    }
  }

  lemma InRevisions(versions: seq<Version>, id: Uuid, ver: Version)
    requires ver in versions && ver.itemId == id
    ensures ver.revision in Descending(versions, id)
  {
    var mine := Filter(versions, OfItem(id));
    assert ver in mine;
    var k :| 0 <= k < |mine| && mine[k] == ver;
    assert Map(mine, RevisionOf())[k] == ver.revision;
    SameMembers(Map(mine, RevisionOf()), Descending(versions, id));
  }

  lemma TopOfDescending(r: seq<int>, n: int, k: nat)
    requires SortedBy(r, Negated()) && 0 < k <= |r| && n in r
    ensures n in r[..k] <==> n >= r[k - 1]
  {
    var i :| 0 <= i < |r| && r[i] == n;
    if n in r[..k] {
      var j :| 0 <= j < k && r[j] == n;
      assert Negated()(r[j]) <= Negated()(r[k - 1]) || j == k - 1;
    } else {
      assert Negated()(r[k - 1]) <= Negated()(r[i]);
      assert r[k - 1] in r[..k];
    }
  }

  // ---- a queue ----------------------------------------------------------------------

  predicate Older(a: Version, b: Version) { a.revision < b.revision }

  /** In a history in increasing order everything is newer than the head, and
      the head is newer than nothing. */
  lemma NewerInIncreasing(s: seq<Version>, id: Uuid)
    requires s != [] && Pairwise(s, Older)
    requires forall ver :: ver in s ==> ver.itemId == id
    ensures Newer(s, id, s[0].revision) == |s| - 1
    ensures forall ver :: ver in s[1..] ==> Newer(s, id, ver.revision) == Newer(s[1..], id, ver.revision)
  {
    var t := s[1..];
    assert forall i :: 0 < i < |s| ==> Older(s[0], s[i]);
    forall ver | ver in t ensures Older(s[0], ver) && ver in s {
      var i :| 0 <= i < |t| && t[i] == ver;
      assert s[i + 1] == ver;
    }
    FilterAll(t, NewerThan(id, s[0].revision));
  }

  /** On a history in increasing order, trimming keeps the end. */
  lemma {:induction false} TrimIsLastK(s: seq<Version>, id: Uuid, keep: nat)
    requires Pairwise(s, Older)
    requires forall ver :: ver in s ==> ver.itemId == id
    ensures Filter(s, AmongLast(s, id, keep)) == LastK(s, keep)
  {
    if s != [] {
      var x, t := s[0], s[1..];
      PairwiseTail(s, Older);
      TrimIsLastK(t, id, keep);
      TrimHead(s, id, keep);
      HeadAndTail(s);
      HeadThenLast(Filter(s, AmongLast(s, id, keep)), x, t, keep);
    }
  }

  lemma TrimHead(s: seq<Version>, id: Uuid, keep: nat)
    requires s != [] && Pairwise(s, Older)
    requires forall ver :: ver in s ==> ver.itemId == id
    ensures Filter(s, AmongLast(s, id, keep))
            == (if |s| - 1 < keep then [s[0]] else []) + Filter(s[1..], AmongLast(s[1..], id, keep))
  {
    var t, kept := s[1..], AmongLast(s, id, keep);
    TrimTail(s, id, keep);
    HeadRank(s, id, keep);
    assert Filter(s, kept) == (if kept(s[0]) then [s[0]] else []) + Filter(t, kept);
  }

  lemma HeadRank(s: seq<Version>, id: Uuid, keep: nat)
    requires s != [] && Pairwise(s, Older)
    requires forall ver :: ver in s ==> ver.itemId == id
    ensures AmongLast(s, id, keep)(s[0]) <==> |s| - 1 < keep
  {
    NewerInIncreasing(s, id);
    assert s[0] in s;
  }

  lemma TrimTail(s: seq<Version>, id: Uuid, keep: nat)
    requires s != [] && Pairwise(s, Older)
    requires forall ver :: ver in s ==> ver.itemId == id
    ensures Filter(s[1..], AmongLast(s, id, keep)) == Filter(s[1..], AmongLast(s[1..], id, keep))
  {
    NewerInIncreasing(s, id);
    FilterAgree(s[1..], AmongLast(s, id, keep), AmongLast(s[1..], id, keep));
  }

  lemma HeadThenLast<T>(kept: seq<T>, x: T, t: seq<T>, k: nat)
    requires kept == (if |t| < k then [x] else []) + LastK(t, k)
    ensures kept == LastK([x] + t, k)
  {
    LastKOfCons(x, t, k);
  }

  lemma LastKOfCons<T>(x: T, t: seq<T>, k: nat)
    ensures LastK([x] + t, k) == if |t| < k then [x] + LastK(t, k) else LastK(t, k)
  {}

  lemma OwnVersionsOlder(versions: seq<Version>, id: Uuid)
    requires Pairwise(versions, Before)
    ensures Pairwise(Filter(versions, OfItem(id)), Older)
  {
    var mine := Filter(versions, OfItem(id));
    FilterPairwise(versions, OfItem(id), Before);
    forall i, j | 0 <= i < j < |mine| ensures Older(mine[i], mine[j]) {
      assert Before(mine[i], mine[j]) && mine[i] in mine && mine[j] in mine;
    }
  }

  /** Recording the current version of a live item: one more at the end of
      its history, and no more than `keep` of them left. */
  lemma RecordingIsEnqueue(v: Vault, current: Item, now: Time, keep: nat)
    requires Valid(v) && FindLive(v.items, current.id) == Some(current) && keep > 0
    ensures Filter(KeepVersion(v.versions, current, now, keep), OfItem(current.id))
         == LastK(VersionsOf(v, current.id)
                  + [Version(current.id, current.revision, current.itemType, current.ciphertext, current.updatedAt, now)], keep)
  {
    var id := current.id;
    var all := v.versions + [Snapshot(current, now)];
    KeepIsTrim(v, current, now, keep);
    TrimThenSelect(all, id, keep);
    OneMoreOfItem(v.versions, Snapshot(current, now));
    RecordedInOrder(v, current, now);
    OwnVersionsOlder(all, id);
    TrimIsLastK(Filter(all, OfItem(id)), id, keep);
  }

  lemma KeepIsTrim(v: Vault, current: Item, now: Time, keep: nat)
    requires Valid(v) && FindLive(v.items, current.id) == Some(current) && keep > 0
    ensures var all := v.versions + [Snapshot(current, now)];
            KeepVersion(v.versions, current, now, keep) == Filter(all, AmongLast(all, current.id, keep))
  {
    KeepVersionValid(v, current, now, keep);
  }

  lemma OneMoreOfItem(versions: seq<Version>, ver: Version)
    ensures Filter(versions + [ver], OfItem(ver.itemId)) == Filter(versions, OfItem(ver.itemId)) + [ver]
  {
    FilterConcat(versions, [ver], OfItem(ver.itemId));
  }

  lemma RecordedInOrder(v: Vault, current: Item, now: Time)
    requires Valid(v) && FindLive(v.items, current.id) == Some(current)
    ensures Pairwise(v.versions + [Snapshot(current, now)], Before)
  {
    forall ver | ver in v.versions ensures Before(ver, Snapshot(current, now)) {
      assert current in v.items;
    }
    PairwiseAppend(v.versions, Snapshot(current, now), Before);
  }

  /** Trimming an item's versions and then looking at them is looking at them
      and then trimming. */
  lemma TrimThenSelect(all: seq<Version>, id: Uuid, keep: nat)
    ensures var mine := Filter(all, OfItem(id));
            Filter(Filter(all, AmongLast(all, id, keep)), OfItem(id)) == Filter(mine, AmongLast(mine, id, keep))
  {
    var mine := Filter(all, OfItem(id));
    var both := (ver: Version) => ver.itemId == id && Newer(all, id, ver.revision) < keep;
    FilterTwice(all, AmongLast(all, id, keep), OfItem(id), both);
    FilterTwice(all, OfItem(id), AmongLast(all, id, keep), both);
    forall ver | ver in mine ensures AmongLast(mine, id, keep)(ver) <==> AmongLast(all, id, keep)(ver) {
      FilterTwice(all, OfItem(id), NewerThan(id, ver.revision), NewerThan(id, ver.revision));
    }
    FilterAgree(mine, AmongLast(mine, id, keep), AmongLast(all, id, keep));
  }

  lemma LastKTwice<T>(s: seq<T>, x: T, k: nat)
    requires k > 0
    ensures LastK(LastK(s, k) + [x], k) == LastK(s + [x], k)
  {}

  // ---- what each event records --------------------------------------------------------

  /** The versions an import brings of one item, on the revisions just below
      the one its record got. */
  function BroughtBy(it: ImportItem, revision: int, keep: nat): seq<Version> {
    var kept := LastK(it.versions, keep);
    seq(|kept|, k requires 0 <= k < |kept| =>
      Version(it.id, revision - |kept| + k, kept[k].itemType, kept[k].ciphertext, kept[k].writtenAt, kept[k].replacedAt))
  }

  function FindImport(items: seq<ImportItem>, id: Uuid): (r: Option<ImportItem>)
    ensures r.Some? ==> r.value in items && r.value.id == id
    ensures r.None? ==> forall it :: it in items ==> it.id != id
  {
    if items == [] then None
    else if items[|items| - 1].id == id then Some(items[|items| - 1])
    else FindImport(items[..|items| - 1], id)
  }

  /** One item of the past: the record that is replaced, as it was. */
  function WithReplaced(h: seq<Version>, live: Option<Item>, now: Time): seq<Version> {
    if live.None? then h
    else
      var i := live.value;
      h + [Version(i.id, i.revision, i.itemType, i.ciphertext, i.updatedAt, now)]
  }

  /** The item is deleted, for more than `trashDays` days. */
  predicate Expired(v: Vault, item: Uuid, now: Time, opts: Options) {
    var i := Find(v.items, item);
    i.Some? && i.value.deletedAt.Some? && now > i.value.deletedAt.value + 86400 * opts.trashDays
  }

  predicate Deleted(v: Vault, item: Uuid) { Find(v.items, item).Some? && Find(v.items, item).value.deletedAt.Some? }

  /** The record of an item's past after an operation on its vault. */
  function RecordedBy(h: seq<Version>, v: Vault, w: Vault, op: VaultOp, item: Uuid, now: Time, keep: nat): seq<Version> {
    match op
    case Put(id, _) =>
      if id == item then WithReplaced(h, FindLive(v.items, id), now) else h
    case Delete(id, moved, _) =>
      if id == item && !moved then WithReplaced(h, FindLive(v.items, id), now) else h
    case ImportItems(req) =>
      var it := FindImport(req.items, item);
      if it.Some? && !Skipped(it.value, keep) && Find(w.items, item).Some?
      then h + BroughtBy(it.value, Find(w.items, item).value.revision, keep)
      else h
    case PurgeItem(id) => if id == item then [] else h
    case EmptyVaultTrash => if Deleted(v, item) then [] else h
    case _ => h
  }

  /** The record of an item's past after any event: nothing when it fails, and
      a new start when the item is purged, its trash expires, or its vault
      comes or goes. */
  function RecordedAt(h: seq<Version>, d: Disk, e: Event, opts: Options, vault: Uuid, item: Uuid): seq<Version> {
    if e.Chunk? || Write(d, e.op, e.now, opts, e.env).1.Err? then h
    else
      var a := Apply(d, e.op, e.now, opts, e.env).value;
      RecordedIn(h, FindVault(d.vaults, vault), FindVault(a.vaults, vault), e.op, e.now, opts, vault, item)
  }

  /** By an operation that succeeds, the vault going from `v` to `w` before the
      expired items are pruned. */
  function RecordedIn(h: seq<Version>, v: Option<Vault>, w: Option<Vault>, op: Op, now: Time, opts: Options, vault: Uuid, item: Uuid):
    seq<Version>
  {
    if v.None? || w.None? then []
    else
      var h' := if op.InVault? && op.id == vault then RecordedBy(h, v.value, w.value, op.op, item, now, opts.itemHistory) else h;
      if Expired(w.value, item, now, opts) then [] else h'
  }

  function RecordOver(d: Disk, events: seq<Event>, opts: Options, vault: Uuid, item: Uuid): seq<Version> {
    if events == [] then []
    else
      var n := |events| - 1;
      RecordedAt(RecordOver(d, events[..n], opts, vault, item), Run(d, events[..n], opts), events[n], opts, vault, item)
  }

  /** What the store keeps of an item is the end of its record. */
  ghost predicate Queue(v: Vault, item: Uuid, h: seq<Version>, keep: nat) {
    && VersionsOf(v, item) == LastK(h, keep)
    && (Find(v.items, item).None? ==> h == [])
  }

  ghost predicate QueueAt(vaults: seq<Vault>, vault: Uuid, item: Uuid, h: seq<Version>, keep: nat) {
    match FindVault(vaults, vault)
    case None => h == []
    case Some(v) => Queue(v, item, h, keep)
  }

  // ---- one operation on the vault --------------------------------------------------------

  lemma ReplaceRecord(v: Vault, current: Item, now: Time, keep: nat, item: Uuid, h: seq<Version>)
    requires Valid(v) && FindLive(v.items, current.id) == Some(current)
    requires VersionsOf(v, item) == LastK(h, keep)
    ensures Filter(KeepVersion(v.versions, current, now, keep), OfItem(item))
         == LastK(if item == current.id then h + [Snapshot(current, now)] else h, keep)
  {
    if item != current.id {
      Sync.KeepVersionOther(v.versions, current, now, keep, item);
    } else if keep > 0 {
      RecordingIsEnqueue(v, current, now, keep);
      LastKTwice(h, Snapshot(current, now), keep);
    }
  }

  /** After the record of one item is written, whoever has no record has no past. */
  lemma UpsertNoRecord(items: seq<Item>, put: Item, item: Uuid)
    ensures Find(Upsert(items, put), item).None? ==> Find(items, item).None? && put.id != item
  {
    FindUpsert(items, put, item);
  }

  lemma PutQueue(v: Vault, id: Uuid, req: PutItemRequest, now: Time, opts: Options, item: Uuid, h: seq<Version>)
    requires Valid(v) && Queue(v, item, h, opts.itemHistory) && PutItem(v, id, req, now, opts).Ok?
    ensures var w := PutItem(v, id, req, now, opts).value.0;
            Queue(w, item, RecordedBy(h, v, w, Put(id, req), item, now, opts.itemHistory), opts.itemHistory)
  {
    var (w, put, created) := PutItem(v, id, req, now, opts).value;
    PutShape(v, id, req, now, opts);
    WrittenQueue(v, w, put, req, now, opts.itemHistory, item, h);
  }

  lemma PutShape(v: Vault, id: Uuid, req: PutItemRequest, now: Time, opts: Options)
    requires PutItem(v, id, req, now, opts).Ok?
    ensures var (w, put, created) := PutItem(v, id, req, now, opts).value;
            var live := FindLive(v.items, id);
            && put.id == id && w.items == Upsert(v.items, put)
            && w.versions == if live.Some? then KeepVersion(v.versions, live.value, now, opts.itemHistory) else v.versions
  {}

  lemma WrittenQueue(v: Vault, w: Vault, put: Item, req: PutItemRequest, now: Time, keep: nat, item: Uuid, h: seq<Version>)
    requires Valid(v) && Queue(v, item, h, keep) && w.items == Upsert(v.items, put)
    requires w.versions == if FindLive(v.items, put.id).Some? then KeepVersion(v.versions, FindLive(v.items, put.id).value, now, keep)
                           else v.versions
    ensures Queue(w, item, RecordedBy(h, v, w, Put(put.id, req), item, now, keep), keep)
  {
    UpsertNoRecord(v.items, put, item);
    if FindLive(v.items, put.id).Some? {
      ReplaceRecord(v, FindLive(v.items, put.id).value, now, keep, item, h);
    }
  }

  lemma DeleteShape(v: Vault, id: Uuid, moved: bool, manifest: Option<ManifestWrite>, now: Time, opts: Options)
    requires DeleteItem(v, id, moved, manifest, now, opts).Ok?
    ensures FindLive(v.items, id).Some?
    ensures var w := DeleteItem(v, id, moved, manifest, now, opts).value;
            var live := FindLive(v.items, id).value;
            && w.items == Upsert(v.items, Tombstone(live, v.revision + 1, now))
            && w.versions == if moved then v.versions else KeepVersion(v.versions, live, now, opts.itemHistory)
  {}

  lemma DeleteQueue(v: Vault, id: Uuid, moved: bool, manifest: Option<ManifestWrite>, now: Time, opts: Options,
                    item: Uuid, h: seq<Version>)
    requires Valid(v) && Queue(v, item, h, opts.itemHistory) && DeleteItem(v, id, moved, manifest, now, opts).Ok?
    ensures var w := DeleteItem(v, id, moved, manifest, now, opts).value;
            Queue(w, item, RecordedBy(h, v, w, Delete(id, moved, manifest), item, now, opts.itemHistory), opts.itemHistory)
  {
    DeleteShape(v, id, moved, manifest, now, opts);
    TombstoneQueue(v, DeleteItem(v, id, moved, manifest, now, opts).value, FindLive(v.items, id).value, moved, manifest, now,
                   opts.itemHistory, item, h);
  }

  lemma TombstoneQueue(v: Vault, w: Vault, live: Item, moved: bool, manifest: Option<ManifestWrite>, now: Time, keep: nat,
                       item: Uuid, h: seq<Version>)
    requires Valid(v) && FindLive(v.items, live.id) == Some(live) && Queue(v, item, h, keep)
    requires w.items == Upsert(v.items, Tombstone(live, v.revision + 1, now))
    requires w.versions == if moved then v.versions else KeepVersion(v.versions, live, now, keep)
    ensures Queue(w, item, RecordedBy(h, v, w, Delete(live.id, moved, manifest), item, now, keep), keep)
  {
    UpsertNoRecord(v.items, Tombstone(live, v.revision + 1, now), item);
    if !moved {
      ReplaceRecord(v, live, now, keep, item, h);
    }
  }

  /** What importing one item adds to the records. */
  lemma ImportOneAdds(v: Vault, it: ImportItem, now: Time, keep: nat)
    requires Valid(v) && Find(v.items, it.id).None? && !Skipped(it, keep)
    ensures var w := ImportOne(v, it, now, keep);
            && Find(w.items, it.id).Some?
            && (forall id :: id != it.id ==> Find(w.items, id) == Find(v.items, id))
            && w.versions == v.versions + BroughtBy(it, Find(w.items, it.id).value.revision, keep)
  {
    ImportedVersions(v, it, now, keep);
    ImportOneShape(v, it, now, keep);
  }

  lemma ImportOneShape(v: Vault, it: ImportItem, now: Time, keep: nat)
    requires Find(v.items, it.id).None? && !Skipped(it, keep)
    requires var u := ImportVersions(v, it.id, LastK(it.versions, keep), now);
             u.items == v.items && u.versions == v.versions + BroughtBy(it, u.revision + 1, keep)
    ensures var w := ImportOne(v, it, now, keep);
            && Find(w.items, it.id).Some?
            && (forall id :: id != it.id ==> Find(w.items, id) == Find(v.items, id))
            && w.versions == v.versions + BroughtBy(it, Find(w.items, it.id).value.revision, keep)
  {
    var u := ImportVersions(v, it.id, LastK(it.versions, keep), now);
    var put := Item(it.id, it.itemType, u.revision + 1, it.ciphertext, it.createdAt, it.updatedAt, it.deletedAt);
    AppendedItem(v.items, put);
    assert ImportOne(v, it, now, keep).items == v.items + [put];
  }

  lemma ImportedVersions(v: Vault, it: ImportItem, now: Time, keep: nat)
    requires Valid(v) && Find(v.items, it.id).None?
    ensures var u := ImportVersions(v, it.id, LastK(it.versions, keep), now);
            u.items == v.items && u.versions == v.versions + BroughtBy(it, u.revision + 1, keep)
  {
    var kept := LastK(it.versions, keep);
    var u := ImportVersions(v, it.id, kept, now);
    ImportVersionsAdds(v, it.id, kept, now);
    BlockIsBrought(u.versions, v, it, keep);
  }

  lemma BlockIsBrought(versions: seq<Version>, v: Vault, it: ImportItem, keep: nat)
    requires var kept := LastK(it.versions, keep);
             && |versions| == |v.versions| + |kept| && versions[..|v.versions|] == v.versions
             && (forall k :: 0 <= k < |kept| ==>
                   versions[|v.versions| + k]
                   == Version(it.id, v.revision + 1 + k, kept[k].itemType, kept[k].ciphertext, kept[k].writtenAt, kept[k].replacedAt))
    ensures versions == v.versions + BroughtBy(it, v.revision + 1 + |LastK(it.versions, keep)|, keep)
  {
    PrefixThen(versions, v.versions, BroughtBy(it, v.revision + 1 + |LastK(it.versions, keep)|, keep));
  }

  lemma PrefixThen<T>(s: seq<T>, a: seq<T>, b: seq<T>)
    requires |s| == |a| + |b| && s[..|a|] == a && forall k :: 0 <= k < |b| ==> s[|a| + k] == b[k]
    ensures s == a + b
  {}

  lemma AppendedItem(items: seq<Item>, put: Item)
    requires Find(items, put.id).None?
    ensures forall id :: Find(items + [put], id) == if id == put.id then Some(put) else Find(items, id)
  {
    UpsertNew(items, put);
    forall id ensures Find(items + [put], id) == if id == put.id then Some(put) else Find(items, id) {
      FindUpsert(items, put, id);
    }
  }

  lemma BroughtIsOwn(it: ImportItem, revision: int, keep: nat, item: Uuid)
    ensures Filter(BroughtBy(it, revision, keep), OfItem(item)) == if item == it.id then BroughtBy(it, revision, keep) else []
  {
    if item == it.id {
      FilterAll(BroughtBy(it, revision, keep), OfItem(item));
    } else {
      FilterNone(BroughtBy(it, revision, keep), OfItem(item));
    }
  }

  /** One imported item: its versions, or those of another item, untouched. */
  lemma ImportOneVersions(v: Vault, it: ImportItem, now: Time, keep: nat, item: Uuid)
    requires Valid(v) && Find(v.items, it.id).None?
    ensures var w := ImportOne(v, it, now, keep);
            && (item != it.id || Skipped(it, keep) ==>
                  VersionsOf(w, item) == VersionsOf(v, item) && Find(w.items, item) == Find(v.items, item))
            && (item == it.id && !Skipped(it, keep) ==>
                  && Find(w.items, item).Some?
                  && VersionsOf(w, item) == VersionsOf(v, item) + BroughtBy(it, Find(w.items, item).value.revision, keep))
  {
    if !Skipped(it, keep) {
      ImportOneAdds(v, it, now, keep);
      var revision := Find(ImportOne(v, it, now, keep).items, it.id).value.revision;
      FilterConcat(v.versions, BroughtBy(it, revision, keep), OfItem(item));
      BroughtIsOwn(it, revision, keep, item);
    }
  }

  lemma {:induction false} ImportAllVersions(v: Vault, items: seq<ImportItem>, now: Time, keep: nat, item: Uuid)
    requires Valid(v) && v.manifest.None? && NewIds(v, items)
    ensures var w := ImportAll(v, items, now, keep);
            var it := FindImport(items, item);
            && (it.None? || Skipped(it.value, keep) ==>
                  VersionsOf(w, item) == VersionsOf(v, item) && Find(w.items, item) == Find(v.items, item))
            && (it.Some? && !Skipped(it.value, keep) ==>
                  && Find(w.items, item).Some?
                  && VersionsOf(w, item) == VersionsOf(v, item) + BroughtBy(it.value, Find(w.items, item).value.revision, keep))
  {
    if items != [] {
      var first, last := items[..|items| - 1], items[|items| - 1];
      NewIdsPrefix(v, items);
      ImportAllVersions(v, first, now, keep, item);
      ImportAllKeeps(v, first, now, keep);
      var u := ImportAll(v, first, now, keep);
      ImportOneVersions(u, last, now, keep, item);
      if last.id == item {
        assert FindImport(first, item).None? by {
          assert forall it :: it in first ==> it.id != item || Mentioned(first, item);
        }
      }
    }
  }

  lemma ImportQueue(v: Vault, req: ImportRequest, now: Time, opts: Options, item: Uuid, h: seq<Version>)
    requires Valid(v) && Queue(v, item, h, opts.itemHistory)
    requires CheckImport(req, opts).None? && Import(v, req, now, opts).Ok?
    ensures var w := Import(v, req, now, opts).value;
            Queue(w, item, RecordedBy(h, v, w, ImportItems(req), item, now, opts.itemHistory), opts.itemHistory)
  {
    ImportIsOfNewIds(v, req, now, opts);
    ImportAllQueue(v, req, now, opts.itemHistory, item, h);
    ImportShape(v, req, now, opts, item, h);
  }

  lemma ImportShape(v: Vault, req: ImportRequest, now: Time, opts: Options, item: Uuid, h: seq<Version>)
    requires Import(v, req, now, opts).Ok?
    requires Queue(ImportAll(v, req.items, now, opts.itemHistory), item,
                   RecordedBy(h, v, ImportAll(v, req.items, now, opts.itemHistory), ImportItems(req), item, now, opts.itemHistory),
                   opts.itemHistory)
    ensures var w := Import(v, req, now, opts).value;
            Queue(w, item, RecordedBy(h, v, w, ImportItems(req), item, now, opts.itemHistory), opts.itemHistory)
  {
    StoredRecords(ImportAll(v, req.items, now, opts.itemHistory), req.manifest);
    SameRecordsQueue(v, ImportAll(v, req.items, now, opts.itemHistory), Import(v, req, now, opts).value, req, now,
                     opts.itemHistory, item, h);
  }

  lemma StoredRecords(u: Vault, manifest: Option<(Blob, int)>)
    ensures StoreManifest(u, manifest).items == u.items && StoreManifest(u, manifest).versions == u.versions
  {}

  lemma SameRecordsQueue(v: Vault, u: Vault, w: Vault, req: ImportRequest, now: Time, keep: nat, item: Uuid, h: seq<Version>)
    requires w.items == u.items && w.versions == u.versions
    requires Queue(u, item, RecordedBy(h, v, u, ImportItems(req), item, now, keep), keep)
    ensures Queue(w, item, RecordedBy(h, v, w, ImportItems(req), item, now, keep), keep)
  {}

  lemma ImportAllQueue(v: Vault, req: ImportRequest, now: Time, keep: nat, item: Uuid, h: seq<Version>)
    requires Valid(v) && v.manifest.None? && NewIds(v, req.items) && Queue(v, item, h, keep)
    ensures var w := ImportAll(v, req.items, now, keep);
            Queue(w, item, RecordedBy(h, v, w, ImportItems(req), item, now, keep), keep)
  {
    ImportAllVersions(v, req.items, now, keep, item);
    if FindImport(req.items, item).Some? { BatchIsNew(v, req.items, item); }
    BroughtQueue(v, ImportAll(v, req.items, now, keep), req, now, keep, item, h);
  }

  lemma BatchIsNew(v: Vault, items: seq<ImportItem>, item: Uuid)
    requires NewIds(v, items) && FindImport(items, item).Some?
    ensures Find(v.items, item).None?
  {
    var k :| 0 <= k < |items| && items[k] == FindImport(items, item).value;
    assert Find(v.items, items[k].id).None?;
  }

  lemma BroughtQueue(v: Vault, w: Vault, req: ImportRequest, now: Time, keep: nat, item: Uuid, h: seq<Version>)
    requires Queue(v, item, h, keep)
    requires var it := FindImport(req.items, item);
             if it.None? || Skipped(it.value, keep) then
               VersionsOf(w, item) == VersionsOf(v, item) && Find(w.items, item) == Find(v.items, item)
             else
               && Find(v.items, item).None? && Find(w.items, item).Some?
               && VersionsOf(w, item) == VersionsOf(v, item) + BroughtBy(it.value, Find(w.items, item).value.revision, keep)
    ensures Queue(w, item, RecordedBy(h, v, w, ImportItems(req), item, now, keep), keep)
  {
    var it := FindImport(req.items, item);
    ImportRecorded(h, v, w, req, item, now, keep);
    if it.Some? && !Skipped(it.value, keep) {
      BroughtFits(it.value, Find(w.items, item).value.revision, keep);
    }
  }

  lemma ImportRecorded(h: seq<Version>, v: Vault, w: Vault, req: ImportRequest, item: Uuid, now: Time, keep: nat)
    ensures var it := FindImport(req.items, item);
            RecordedBy(h, v, w, ImportItems(req), item, now, keep)
            == if it.Some? && !Skipped(it.value, keep) && Find(w.items, item).Some?
               then h + BroughtBy(it.value, Find(w.items, item).value.revision, keep)
               else h
  {}

  lemma BroughtFits(it: ImportItem, revision: int, keep: nat)
    ensures LastK(BroughtBy(it, revision, keep), keep) == BroughtBy(it, revision, keep)
    ensures LastK([] + BroughtBy(it, revision, keep), keep) == BroughtBy(it, revision, keep)
  {
    assert [] + BroughtBy(it, revision, keep) == BroughtBy(it, revision, keep);
  }

  lemma ImportIsOfNewIds(v: Vault, req: ImportRequest, now: Time, opts: Options)
    requires CheckImport(req, opts).None? && Import(v, req, now, opts).Ok?
    ensures NewIds(v, req.items) && v.manifest.None?
  {
    BatchDistinct(req.items, {}, opts.maxItemBytes);
    forall i | 0 <= i < |req.items| ensures Find(v.items, req.items[i].id).None? {
      var it := req.items[i];
      assert it in req.items && it !in Filter(req.items, Present(v));
    }
  }

  /** Dropping the versions of some items. */
  lemma DropQueue(versions: seq<Version>, gone: set<Uuid>, item: Uuid)
    ensures Filter(Filter(versions, NotOf(gone)), OfItem(item)) == if item in gone then [] else Filter(versions, OfItem(item))
  {
    if item in gone {
      FilterNone(Filter(versions, NotOf(gone)), OfItem(item));
    } else {
      FilterTwice(versions, NotOf(gone), OfItem(item), OfItem(item));
    }
  }

  lemma OpQueue(v: Vault, op: VaultOp, files: Files, now: Time, opts: Options, item: Uuid, h: seq<Version>)
    requires Valid(v) && Queue(v, item, h, opts.itemHistory)
    requires Precheck(InVault(v.id, op), opts).None? && ApplyInVault(v, op, files, now, opts).Ok?
    ensures var w := ApplyInVault(v, op, files, now, opts).value.0;
            Queue(w, item, RecordedBy(h, v, w, op, item, now, opts.itemHistory), opts.itemHistory)
  {
    if op.Put? {
      PutQueue(v, op.item, op.put, now, opts, item, h);
    } else if op.Delete? {
      DeleteQueue(v, op.item, op.moved, op.manifest, now, opts, item, h);
    } else if op.ImportItems? {
      ImportQueue(v, op.batch, now, opts, item, h);
    } else if op.PurgeItem? {
      PurgeQueue(v, op.item, item, h, opts.itemHistory);
    } else if op.EmptyVaultTrash? {
      DeletedMeans(v, item);
      DropQueue(v.versions, DeletedIds(v), item);
    } else {
      OthersKeepRecords(v, op, files, now, opts);
    }
  }

  lemma DeletedMeans(v: Vault, item: Uuid)
    requires Valid(v)
    ensures item in DeletedIds(v) <==> Deleted(v, item)
  {
    forall i | i in v.items && i.id == item ensures Find(v.items, item) == Some(i) {
      FindUnique(v.items, i);
    }
  }

  lemma ExpiredMeans(v: Vault, item: Uuid, now: Time, opts: Options)
    requires Pairwise(v.items, Apart)
    ensures item in ExpiredIds(v, now, opts) <==> Expired(v, item, now, opts)
  {
    forall i | i in v.items && i.id == item ensures Find(v.items, item) == Some(i) {
      FindUnique(v.items, i);
    }
  }

  lemma PurgeQueue(v: Vault, id: Uuid, item: Uuid, h: seq<Version>, keep: nat)
    requires Queue(v, item, h, keep) && Purge(v, id).Ok?
    ensures Queue(Purge(v, id).value, item, if id == item then [] else h, keep)
  {
    DropQueue(v.versions, {id}, item);
  }

  lemma OthersKeepRecords(v: Vault, op: VaultOp, files: Files, now: Time, opts: Options)
    requires ApplyInVault(v, op, files, now, opts).Ok?
    requires !op.Put? && !op.Delete? && !op.ImportItems? && !op.PurgeItem? && !op.EmptyVaultTrash?
    ensures var w := ApplyInVault(v, op, files, now, opts).value.0;
            w.items == v.items && w.versions == v.versions
  {}

  // ---- one event ------------------------------------------------------------------------

  ghost predicate SameRecords(v: Option<Vault>, w: Option<Vault>) {
    w.Some? ==>
      if v.Some? then w.value.items == v.value.items && w.value.versions == v.value.versions
      else w.value.items == [] && w.value.versions == []
  }

  /** The same vault but for its attachment records. */
  ghost predicate AttachmentsOnly(v: Option<Vault>, w: Option<Vault>) {
    (v.None? <==> w.None?) && (v.Some? ==> w.value == v.value.(attachments := w.value.attachments))
  }

  lemma OneSet(vaults: seq<Vault>, v: Vault, w: Vault, vault: Uuid)
    requires FindVault(vaults, v.id) == Some(v) && w == v.(attachments := w.attachments)
    ensures AttachmentsOnly(FindVault(vaults, vault), FindVault(SetVault(vaults, w), vault))
  {
    FindSetVault(vaults, w, vault);
  }

  lemma TwoSet(vaults: seq<Vault>, v: Vault, u: Vault, t: Vault, w: Vault, vault: Uuid)
    requires FindVault(vaults, v.id) == Some(v) && FindVault(vaults, t.id) == Some(t) && v.id != t.id
    requires u == v.(attachments := u.attachments) && w == t.(attachments := w.attachments)
    ensures AttachmentsOnly(FindVault(vaults, vault), FindVault(SetVault(SetVault(vaults, w), u), vault))
  {
    FindSetVault(vaults, w, vault);
    FindSetVault(SetVault(vaults, w), u, vault);
  }

  /** A move changes attachment records only. */
  lemma MoveRecords(d: Disk, source: Uuid, id: Uuid, target: Uuid, it: Uuid, env: Env, vault: Uuid)
    requires Move(d, source, id, target, it, env).Ok?
    ensures AttachmentsOnly(FindVault(d.vaults, vault), FindVault(Move(d, source, id, target, it, env).value.vaults, vault))
  {
    var v, t := FindVault(d.vaults, source).value, FindVault(d.vaults, target).value;
    var a := FindAttachment(v.attachments, id).value.(itemId := it);
    var vaults := Move(d, source, id, target, it, env).value.vaults;
    if source == target {
      var w := v.(attachments := SetAttachment(v.attachments, a));
      assert vaults == SetVault(d.vaults, w);
      OneSet(d.vaults, v, w, vault);
    } else {
      var (u, w) := Moved(v, t, id, it);
      assert vaults == SetVault(SetVault(d.vaults, w), u);
      TwoSet(d.vaults, v, u, t, w, vault);
    }
  }

  /** An operation changes the records of the vault it is about, and no others. */
  lemma OtherRecords(d: Disk, op: Op, now: Time, opts: Options, env: Env, vault: Uuid)
    requires Apply(d, op, now, opts, env).Ok?
    requires !(op.InVault? && op.id == vault)
    ensures SameRecords(FindVault(d.vaults, vault), FindVault(Apply(d, op, now, opts, env).value.vaults, vault))
  {
    match op
    case CreateVault(id, name) => CreateRecords(d.vaults, NewVault(id, Shared, name, now), vault);
    case DeleteVault(id) => FindFiltered(d.vaults, id, vault);
    case InVault(id, inner) => InVaultRecords(d, id, inner, now, opts, env, vault);
    case MoveAttachment(id, attachment, target, item) => MoveRecords(d, id, attachment, target, item, env, vault);
  }

  lemma CreateRecords(vaults: seq<Vault>, v: Vault, vault: Uuid)
    requires FindVault(vaults, v.id).None? && v.items == [] && v.versions == []
    ensures SameRecords(FindVault(vaults, vault), FindVault(vaults + [v], vault))
  {
    FindAppended(vaults, v, vault);
  }

  lemma InVaultRecords(d: Disk, id: Uuid, op: VaultOp, now: Time, opts: Options, env: Env, vault: Uuid)
    requires Apply(d, InVault(id, op), now, opts, env).Ok? && id != vault
    ensures FindVault(Apply(d, InVault(id, op), now, opts, env).value.vaults, vault) == FindVault(d.vaults, vault)
  {
    var v := FindVault(d.vaults, id).value;
    var w := ApplyInVault(v, op, d.files, now, opts).value.0;
    assert w.id == id by { SameVault(v, op, d.files, now, opts); }
    FindSetVault(d.vaults, w, vault);
  }

  lemma {:induction false} SameVault(v: Vault, op: VaultOp, files: Files, now: Time, opts: Options)
    requires ApplyInVault(v, op, files, now, opts).Ok?
    ensures ApplyInVault(v, op, files, now, opts).value.0.id == v.id
  {
    if op.ImportItems? {
      ImportSameVault(v, op.batch.items, now, opts.itemHistory);
    }
  }

  lemma {:induction false} ImportSameVault(v: Vault, items: seq<ImportItem>, now: Time, keep: nat)
    ensures ImportAll(v, items, now, keep).id == v.id
  {
    if items != [] {
      var first, last := items[..|items| - 1], items[|items| - 1];
      ImportSameVault(v, first, now, keep);
      VersionsSameVault(ImportAll(v, first, now, keep), last.id, LastK(last.versions, keep), now);
    }
  }

  lemma {:induction false} VersionsSameVault(v: Vault, id: Uuid, versions: seq<ImportVersion>, now: Time)
    ensures ImportVersions(v, id, versions, now).id == v.id
  {
    if versions != [] {
      VersionsSameVault(v, id, versions[..|versions| - 1], now);
    }
  }

  lemma OwnRecords(d: Disk, id: Uuid, op: VaultOp, now: Time, opts: Options, env: Env)
    requires DiskValid(d) && Apply(d, InVault(id, op), now, opts, env).Ok? && Precheck(InVault(id, op), opts).None?
    ensures FindVault(d.vaults, id).Some?
    ensures var v := FindVault(d.vaults, id).value;
            && ApplyInVault(v, op, d.files, now, opts).Ok?
            && FindVault(Apply(d, InVault(id, op), now, opts, env).value.vaults, id)
               == Some(ApplyInVault(v, op, d.files, now, opts).value.0)
  {
    var v := FindVault(d.vaults, id).value;
    InVaultKeeps(v, op, d.files, now, opts);
    FindSetVault(d.vaults, ApplyInVault(v, op, d.files, now, opts).value.0, id);
  }

  lemma ApplyQueue(d: Disk, op: Op, now: Time, env: Env, opts: Options, vault: Uuid, item: Uuid, h: seq<Version>)
    requires DiskValid(d) && QueueAt(d.vaults, vault, item, h, opts.itemHistory)
    requires Precheck(op, opts).None? && Apply(d, op, now, opts, env).Ok?
    requires FindVault(d.vaults, vault).Some? && FindVault(Apply(d, op, now, opts, env).value.vaults, vault).Some?
    ensures var v := FindVault(d.vaults, vault).value;
            var w := FindVault(Apply(d, op, now, opts, env).value.vaults, vault).value;
            var h' := if op.InVault? && op.id == vault then RecordedBy(h, v, w, op.op, item, now, opts.itemHistory) else h;
            Queue(w, item, h', opts.itemHistory)
  {
    var v := FindVault(d.vaults, vault).value;
    if op.InVault? && op.id == vault {
      OwnRecords(d, vault, op.op, now, opts, env);
      OpQueue(v, op.op, d.files, now, opts, item, h);
    } else {
      OtherRecords(d, op, now, opts, env, vault);
    }
  }

  lemma PruneQueue(w: Vault, item: Uuid, h: seq<Version>, keep: nat, now: Time, opts: Options)
    requires Queue(w, item, h, keep) && Pairwise(w.items, Apart)
    ensures Queue(Prune(w, now, opts), item, if Expired(w, item, now, opts) then [] else h, keep)
  {
    ExpiredMeans(w, item, now, opts);
    DropQueue(w.versions, ExpiredIds(w, now, opts), item);
  }

  lemma EventQueue(d: Disk, e: Event, opts: Options, vault: Uuid, item: Uuid, h: seq<Version>)
    requires DiskValid(d) && QueueAt(d.vaults, vault, item, h, opts.itemHistory)
    ensures QueueAt(Step(d, e, opts).vaults, vault, item, RecordedAt(h, d, e, opts, vault, item), opts.itemHistory)
  {
    if e.Operation? && Write(d, e.op, e.now, opts, e.env).1.Ok? {
      WriteQueue(d, e.op, e.now, e.env, opts, vault, item, h);
    } else {
      NothingRecorded(d, e, opts, vault, item, h);
    }
  }

  lemma NothingRecorded(d: Disk, e: Event, opts: Options, vault: Uuid, item: Uuid, h: seq<Version>)
    requires DiskValid(d) && (e.Operation? ==> Write(d, e.op, e.now, opts, e.env).1.Err?)
    ensures Step(d, e, opts).vaults == d.vaults
    ensures RecordedAt(h, d, e, opts, vault, item) == h
  {
    match e
    case Operation(op, now, env) => FailureChangesNothing(d, op, now, opts, env);
    case Chunk(v, a, i, n, env) => PutChunkKeeps(d, v, a, i, n, env);
  }

  lemma WriteQueue(d: Disk, op: Op, now: Time, env: Env, opts: Options, vault: Uuid, item: Uuid, h: seq<Version>)
    requires DiskValid(d) && QueueAt(d.vaults, vault, item, h, opts.itemHistory)
    requires Write(d, op, now, opts, env).1.Ok?
    ensures QueueAt(Write(d, op, now, opts, env).0.vaults, vault, item,
                    RecordedAt(h, d, Operation(op, now, env), opts, vault, item), opts.itemHistory)
  {
    WriteIsApplyThenPrune(d, op, now, opts, env);
    AppliedQueue(d, op, now, env, opts, vault, item, h);
  }

  lemma AppliedQueue(d: Disk, op: Op, now: Time, env: Env, opts: Options, vault: Uuid, item: Uuid, h: seq<Version>)
    requires DiskValid(d) && QueueAt(d.vaults, vault, item, h, opts.itemHistory)
    requires Precheck(op, opts).None? && Apply(d, op, now, opts, env).Ok?
    ensures var vaults := Apply(d, op, now, opts, env).value.vaults;
            QueueAt(PruneAll(vaults, now, opts), vault, item,
                    RecordedIn(h, FindVault(d.vaults, vault), FindVault(vaults, vault), op, now, opts, vault, item), opts.itemHistory)
  {
    var vaults := Apply(d, op, now, opts, env).value.vaults;
    var v, w := FindVault(d.vaults, vault), FindVault(vaults, vault);
    if v.Some? && w.Some? {
      ApplyQueue(d, op, now, env, opts, vault, item, h);
    } else if w.Some? {
      OtherRecords(d, op, now, opts, env, vault);
    }
    AppliedItemsApart(d, op, now, opts, env, vault);
    PrunedQueueAt(vaults, v, op, now, opts, vault, item, h);
  }

  lemma AppliedItemsApart(d: Disk, op: Op, now: Time, opts: Options, env: Env, vault: Uuid)
    requires DiskValid(d) && Precheck(op, opts).None? && Apply(d, op, now, opts, env).Ok?
    ensures var w := FindVault(Apply(d, op, now, opts, env).value.vaults, vault);
            w.Some? ==> Pairwise(w.value.items, Apart)
  {
    OperationHolds(d, op, now, opts, env);
  }

  lemma PrunedQueueAt(vaults: seq<Vault>, v: Option<Vault>, op: Op, now: Time, opts: Options, vault: Uuid, item: Uuid, h: seq<Version>)
    requires var w := FindVault(vaults, vault);
             w.Some? ==>
               Pairwise(w.value.items, Apart) &&
               if v.None? then Queue(w.value, item, [], opts.itemHistory)
               else Queue(w.value, item,
                          if op.InVault? && op.id == vault then RecordedBy(h, v.value, w.value, op.op, item, now, opts.itemHistory) else h,
                          opts.itemHistory)
    ensures QueueAt(PruneAll(vaults, now, opts), vault, item,
                    RecordedIn(h, v, FindVault(vaults, vault), op, now, opts, vault, item), opts.itemHistory)
  {
    var w := FindVault(vaults, vault);
    FindPruned(vaults, now, opts, vault);
    if w.Some? {
      var h' := if v.None? then []
                else if op.InVault? && op.id == vault then RecordedBy(h, v.value, w.value, op.op, item, now, opts.itemHistory)
                else h;
      PruneQueue(w.value, item, h', opts.itemHistory, now, opts);
    }
  }

  // ---- theorem --------------------------------------------------------------------------

  lemma {:induction false} RunQueue(d: Disk, events: seq<Event>, opts: Options, vault: Uuid, item: Uuid)
    requires DiskValid(d) && QueueAt(d.vaults, vault, item, [], opts.itemHistory)
    ensures QueueAt(Run(d, events, opts).vaults, vault, item, RecordOver(d, events, opts, vault, item), opts.itemHistory)
  {
    if events != [] {
      var n := |events| - 1;
      RunQueue(d, events[..n], opts, vault, item);
      RunKeeps(d, events[..n], opts);
      EventQueue(Run(d, events[..n], opts), events[n], opts, vault, item, RecordOver(d, events[..n], opts, vault, item));
    }
  }

  /** In every reachable state the versions kept of an item are, in order, the
      last `itemHistory` recorded for it since it was purged or expired. */
  lemma HistoryIsABoundedQueue(personal: Uuid, nameEnc: Blob, created: Time, events: seq<Event>, opts: Options,
                               vault: Uuid, item: Uuid)
    ensures var d0 := Created(personal, nameEnc, created);
            var v := FindVault(Run(d0, events, opts).vaults, vault);
            v.Some? ==> VersionsOf(v.value, item) == LastK(RecordOver(d0, events, opts, vault, item), opts.itemHistory)
  {
    RunQueue(Created(personal, nameEnc, created), events, opts, vault, item);
  }
}
