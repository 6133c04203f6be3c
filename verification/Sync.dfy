/** Reading a vault: whole, or by the changes since a revision. */
module Sync {
  import opened Wrappers
  import opened Seqs
  import opened Text
  import opened Crypto
  import opened VaultModel
  import opened VaultLaws

  /** An item as it travels. */
  datatype ItemView = ItemView(
    id: Uuid, vaultId: Uuid, itemType: string, revision: int, ciphertext: Blob,
    deleted: bool, createdAt: Time, updatedAt: Time)

  datatype ItemsPage = ItemsPage(items: seq<ItemView>, revision: int, manifest: Option<(Blob, int)>)

  function View(i: Item, vaultId: Uuid): ItemView {
    ItemView(i.id, vaultId, i.itemType, i.revision, i.ciphertext, i.deletedAt.Some?, i.createdAt, i.updatedAt)
  }

  function Viewer(vaultId: Uuid): Item -> ItemView { (i: Item) => View(i, vaultId) }

  function Selected(since: Option<int>): Item -> bool {
    (i: Item) => if since.Some? then i.revision > since.value else i.Live()
  }

  function ByRevision(): Item -> int { (i: Item) => i.revision }

  /** Everything live, or what changed after `since`, tombstones included. */
  function Items(v: Vault, since: Option<int>): ItemsPage {
    ItemsPage(
      Map(SortBy(Filter(v.items, Selected(since)), ByRevision()), Viewer(v.id)),
      v.revision,
      ManifestProto(v))
  }

  // ---- the reader's side -----------------------------------------------------

  type Mirror = map<Uuid, ItemView>

  function ApplyOne(m: Mirror, i: ItemView): Mirror {
    if i.deleted then m - {i.id} else m[i.id := i]
  }

  /** Replace by id, drop what is deleted, in the order of the page. */
  function Apply(m: Mirror, page: seq<ItemView>): Mirror
    decreases |page|
  {
    if page == [] then m else Apply(ApplyOne(m, page[0]), page[1..])
  }

  /** What a full read gives. */
  function Live(v: Vault): Mirror { Apply(map[], Items(v, None).items) }

  // ---- what a page holds --------------------------------------------------------

  function Get(m: Mirror, id: Uuid): Option<ItemView> { if id in m then Some(m[id]) else None }

  function Lookup(page: seq<ItemView>, id: Uuid): (r: Option<ItemView>)
    ensures r.Some? ==> r.value in page && r.value.id == id
    ensures r.None? ==> forall i :: i in page ==> i.id != id
  {
    if page == [] then None
    else if page[0].id == id then Some(page[0])
    else Lookup(page[1..], id)
  }

  ghost predicate DistinctViews(page: seq<ItemView>) {
    forall i, j :: 0 <= i < j < |page| ==> page[i].id != page[j].id
  }

  /** With one entry per id, the order of the entries does not matter. */
  lemma {:induction false} ApplyGet(m: Mirror, page: seq<ItemView>, id: Uuid)
    requires DistinctViews(page)
    ensures Get(Apply(m, page), id)
         == match Lookup(page, id)
            case None => Get(m, id)
            case Some(i) => if i.deleted then None else Some(i)
    decreases |page|
  {
    if page != [] {
      var rest := page[1..];
      ApplyGet(ApplyOne(m, page[0]), rest, id);
      if page[0].id == id {
        assert forall k :: 0 <= k < |rest| ==> rest[k] == page[k + 1];
        assert Lookup(rest, id).None?;
      }
    }
  }

  /** Records sorted stay one per id. */
  lemma SortedApart(items: seq<Item>, sorted: seq<Item>)
    requires Pairwise(items, Apart) && multiset(sorted) == multiset(items)
    ensures forall i, j :: 0 <= i < j < |sorted| ==> sorted[i].id != sorted[j].id
  {
    SameMembers(items, sorted);
    forall i, j | 0 <= i < j < |sorted| ensures sorted[i].id != sorted[j].id {
      if sorted[i].id == sorted[j].id {
        FindUnique(items, sorted[i]);
        FindUnique(items, sorted[j]);
        OccursTwice(sorted, i, j);
        OccursOnce(items, sorted[i]);
      }
    }
  }

  lemma ViewsApart(sorted: seq<Item>, vaultId: Uuid)
    requires forall i, j :: 0 <= i < j < |sorted| ==> sorted[i].id != sorted[j].id
    ensures DistinctViews(Map(sorted, Viewer(vaultId)))
  {}

  lemma ViewMembers(sorted: seq<Item>, vaultId: Uuid, x: ItemView)
    ensures x in Map(sorted, Viewer(vaultId)) <==> exists i :: i in sorted && x == View(i, vaultId)
  {
    var page := Map(sorted, Viewer(vaultId));
    if x in page {
      var k :| 0 <= k < |page| && page[k] == x;
      assert sorted[k] in sorted;
    }
    if i :| i in sorted && x == View(i, vaultId) {
      var k :| 0 <= k < |sorted| && sorted[k] == i;
      assert page[k] == x;
    }
  }

  lemma SelectedOnce(v: Vault, since: Option<int>)
    requires Pairwise(v.items, Apart)
    ensures DistinctViews(Items(v, since).items)
    ensures forall i :: i in v.items && Selected(since)(i) ==> View(i, v.id) in Items(v, since).items
    ensures forall x :: x in Items(v, since).items ==>
                          exists i :: i in v.items && Selected(since)(i) && x == View(i, v.id)
  {
    var chosen := Filter(v.items, Selected(since));
    var sorted := SortBy(chosen, ByRevision());
    FilterPairwise(v.items, Selected(since), Apart);
    SameMembers(chosen, sorted);
    SortedApart(chosen, sorted);
    ViewsApart(sorted, v.id);
    forall i | i in v.items && Selected(since)(i) ensures View(i, v.id) in Items(v, since).items {
      assert i in sorted;
      ViewMembers(sorted, v.id, View(i, v.id));
    }
    forall x | x in Items(v, since).items ensures exists i :: i in v.items && Selected(since)(i) && x == View(i, v.id) {
      ViewMembers(sorted, v.id, x);
    }
  }

  lemma OccursTwice<T>(s: seq<T>, i: nat, j: nat)
    requires i < j < |s| && s[i] == s[j]
    ensures multiset(s)[s[i]] >= 2
  {
    assert s == s[..j] + s[j..];
    assert s[i] == s[..j][i] && s[j] == s[j..][0];
    assert s[i] in s[..j] && s[i] in s[j..];
    assert multiset(s) == multiset(s[..j]) + multiset(s[j..]);
  }

  lemma {:induction false} OccursOnce(items: seq<Item>, x: Item)
    requires Pairwise(items, Apart)
    ensures multiset(items)[x] <= 1
  {
    if items != [] {
      var t := items[1..];
      OccursOnce(t, x);
      assert items == [items[0]] + t;
      assert forall k :: 1 <= k < |items| ==> Apart(items[0], items[k]);
    }
  }

  /** A page in full: the changes after `since`, tombstones included, or what is
      live; each record as it is stored, the oldest change first. */
  lemma PageMeans(v: Vault, since: Option<int>)
    requires Pairwise(v.items, Apart)
    ensures var page := Items(v, since);
            && page.revision == v.revision
            && page.manifest == (if v.manifest.Some? then Some((v.manifest.value, v.manifestRevision)) else None)
            && (forall i, j :: 0 <= i < j < |page.items| ==> page.items[i].revision <= page.items[j].revision)
            && (forall x :: x in page.items <==>
                  exists i: Item :: i in v.items && (if since.Some? then i.revision > since.value else i.deletedAt.None?)
                              && x == ItemView(i.id, v.id, i.itemType, i.revision, i.ciphertext, i.deletedAt.Some?, i.createdAt, i.updatedAt))
  {
    var chosen := Filter(v.items, Selected(since));
    var sorted := SortBy(chosen, ByRevision());
    SelectedOnce(v, since);
    SortBySorted(chosen, ByRevision());
    forall i, j | 0 <= i < j < |sorted| ensures sorted[i].revision <= sorted[j].revision {
      assert ByRevision()(sorted[i]) <= ByRevision()(sorted[j]);
    }
  }

  /** What is found in a page is the record of that id, when selected. */
  lemma PageLookup(v: Vault, since: Option<int>, id: Uuid)
    requires Pairwise(v.items, Apart)
    ensures var i := Find(v.items, id);
            Lookup(Items(v, since).items, id)
            == if i.Some? && Selected(since)(i.value) then Some(View(i.value, v.id)) else None
  {
    SelectedOnce(v, since);
    var page := Items(v, since).items;
    var found := Lookup(page, id);
    var i := Find(v.items, id);
    if found.Some? {
      var r :| r in v.items && Selected(since)(r) && found.value == View(r, v.id);
      FindUnique(v.items, r);
    }
  }

  /** A full read is the live records, each under its id. */
  lemma LiveGet(v: Vault, id: Uuid)
    requires Pairwise(v.items, Apart)
    ensures var i := Find(v.items, id);
            Get(Live(v), id) == if i.Some? && i.value.Live() then Some(View(i.value, v.id)) else None
  {
    SelectedOnce(v, None);
    PageLookup(v, None, id);
    ApplyGet(map[], Items(v, None).items, id);
  }

  lemma SameMirror(m: Mirror, n: Mirror)
    requires forall id :: Get(m, id) == Get(n, id)
    ensures m == n
  {
    assert forall id :: (id in m <==> Get(m, id).Some?) && (id in n <==> Get(n, id).Some?);
    assert m.Keys == n.Keys;
    forall id | id in m ensures m[id] == n[id] {
      assert Get(m, id) == Get(n, id);
    }
  }

  // ---- theorems ------------------------------------------------------------------

  /** Delta sync is exact: whoever mirrored the vault at any revision from
      `since` on gets its present state by applying the changes since. */
  lemma DeltaSync(v: Vault, w: Vault, since: int)
    requires Valid(v) && Valid(w) && Evolves(v, w)
    requires since <= v.revision
    ensures Apply(Live(v), Items(w, Some(since)).items) == Live(w)
  {
    SelectedOnce(w, Some(since));
    forall id ensures Get(Apply(Live(v), Items(w, Some(since)).items), id) == Get(Live(w), id) {
      ApplyGet(Live(v), Items(w, Some(since)).items, id);
      PageLookup(w, Some(since), id);
      LiveGet(v, id);
      LiveGet(w, id);
      assert SameOrNewer(v, w, id);
    }
    SameMirror(Apply(Live(v), Items(w, Some(since)).items), Live(w));
  }

  /** The page that comes with a delta says from where to ask for the next:
      two deltas chained give what one would have. */
  lemma DeltasCompose(u: Vault, v: Vault, w: Vault)
    requires Valid(u) && Valid(v) && Valid(w) && Evolves(u, v) && Evolves(v, w)
    ensures var first := Items(v, Some(u.revision));
            var second := Items(w, Some(first.revision));
            Apply(Apply(Live(u), first.items), second.items)
            == Apply(Live(u), Items(w, Some(u.revision)).items)
            == Live(w)
  {
    DeltaSync(u, v, u.revision);
    DeltaSync(v, w, v.revision);
    EvolvesTransitive(u, v, w);
    DeltaSync(u, w, u.revision);
  }

  /** An unchanged revision means unchanged live items, and, once the vault
      has a manifest, an unchanged manifest: a cache keyed on the revision
      (`gv sync`) never goes stale. */
  lemma SameRevisionSameItems(v: Vault, w: Vault)
    requires Valid(v) && Valid(w) && Evolves(v, w) && v.revision == w.revision
    ensures Live(v) == Live(w)
    ensures v.manifest.Some? ==> ManifestProto(v) == ManifestProto(w)
  {
    forall id ensures Get(Live(v), id) == Get(Live(w), id) {
      LiveGet(v, id);
      LiveGet(w, id);
      assert SameOrNewer(v, w, id);
      if Find(w.items, id).Some? {
        assert Find(w.items, id).value.revision <= w.revision;
      }
    }
    SameMirror(Live(v), Live(w));
  }

  /** No lost update: a write based on a revision read earlier succeeds only
      if nobody wrote that item in between. */
  lemma NoLostUpdate(v: Vault, w: Vault, id: Uuid, req: PutItemRequest, now: Time, opts: Options)
    requires Valid(v) && Valid(w) && Evolves(v, w)
    requires PutItem(w, id, req, now, opts).Ok?
    requires FindLive(v.items, id).Some? && req.baseRevision == Some(FindLive(v.items, id).value.revision)
    ensures Find(w.items, id) == Find(v.items, id)
  {
    assert SameOrNewer(v, w, id);
  }

  /** Exactly when a write is accepted. */
  lemma PutItemAccepted(v: Vault, id: Uuid, req: PutItemRequest, now: Time, opts: Options)
    requires Valid(v)
    ensures var before := Get(Live(v), id);
            PutItem(v, id, req, now, opts).Ok? <==>
            && NextManifest(v, req.manifest, opts.maxItemBytes).Ok?
            && req.baseRevision == (if before.Some? then Some(before.value.revision) else None)
            && (before.Some? ==> before.value.itemType == req.itemType)
  {
    LiveGet(v, id);
  }

  /** One record rewritten: one entry of the full read changes. */
  lemma UpsertMirror(v: Vault, w: Vault, item: Item)
    requires Pairwise(v.items, Apart) && Pairwise(w.items, Apart)
    requires w.id == v.id && w.items == Upsert(v.items, item)
    ensures forall x :: Get(Live(w), x)
                     == if x != item.id then Get(Live(v), x) else if item.Live() then Some(View(item, v.id)) else None
  {
    forall x
      ensures Get(Live(w), x)
           == if x != item.id then Get(Live(v), x) else if item.Live() then Some(View(item, v.id)) else None
    {
      LiveGet(v, x);
      LiveGet(w, x);
      FindUpsert(v.items, item, x);
    }
  }

  /** Such a write, on the full read and on the page of the changes since. */
  lemma AfterUpsert(v: Vault, w: Vault, item: Item, since: int)
    requires Pairwise(v.items, Apart) && Pairwise(w.items, Apart)
    requires w.id == v.id && w.items == Upsert(v.items, item) && item.revision > since
    ensures Live(w) == ApplyOne(Live(v), View(item, v.id))
    ensures Lookup(Items(w, Some(since)).items, item.id) == Some(View(item, v.id))
  {
    UpsertMirror(v, w, item);
    MirrorUpdated(Live(v), Live(w), View(item, v.id));
    FindUpsert(v.items, item, item.id);
    PageLookup(w, Some(since), item.id);
  }

  lemma MirrorUpdated(m: Mirror, n: Mirror, i: ItemView)
    requires forall x :: Get(n, x) == if x != i.id then Get(m, x) else if i.deleted then None else Some(i)
    ensures n == ApplyOne(m, i)
  {
    SameMirror(n, ApplyOne(m, i));
  }

  lemma PutItemShape(v: Vault, id: Uuid, req: PutItemRequest, now: Time, opts: Options)
    requires PutItem(v, id, req, now, opts).Ok?
    ensures var (w, item, created) := PutItem(v, id, req, now, opts).value;
            && w.id == v.id && w.items == Upsert(v.items, item) && w.revision == v.revision + 1 && item.Live()
            && (item.id, item.revision, item.itemType, item.ciphertext) == (id, w.revision, req.itemType, req.ciphertext)
            && item.createdAt == (if Find(v.items, id).Some? then Find(v.items, id).value.createdAt else now)
            && item.updatedAt == w.updatedAt == now
            && (created <==> FindLive(v.items, id).None?)
  {}

  lemma DeleteItemShape(v: Vault, id: Uuid, moved: bool, manifest: Option<ManifestWrite>, now: Time, opts: Options)
    requires DeleteItem(v, id, moved, manifest, now, opts).Ok?
    ensures var w := DeleteItem(v, id, moved, manifest, now, opts).value;
            && FindLive(v.items, id).Some? && w.id == v.id && w.revision == v.revision + 1
            && w.items == Upsert(v.items, Tombstone(FindLive(v.items, id).value, v.revision + 1, now))
            && w.updatedAt == now
  {}

  /** What an accepted write does to the live items: one entry, at a new
      revision, under the requested type and ciphertext, dated of now but
      created when the item first was. */
  lemma PutItemWrites(v: Vault, id: Uuid, req: PutItemRequest, now: Time, opts: Options)
    requires Valid(v) && PutItem(v, id, req, now, opts).Ok?
    ensures var (w, item, created) := PutItem(v, id, req, now, opts).value;
            && w.revision == v.revision + 1
            && Live(w) == Live(v)[id := View(item, v.id)]
            && (created <==> id !in Live(v))
            && (item.id, item.revision, item.itemType, item.ciphertext) == (id, w.revision, req.itemType, req.ciphertext)
            && item.createdAt == (if Find(v.items, id).Some? then Find(v.items, id).value.createdAt else now)
            && item.updatedAt == w.updatedAt == now
  {
    var (w, item, created) := PutItem(v, id, req, now, opts).value;
    PutItemKeeps(v, id, req, now, opts);
    PutItemShape(v, id, req, now, opts);
    LiveGet(v, id);
    AfterUpsert(v, w, item, v.revision);
  }

  lemma DeleteItemAccepted(v: Vault, id: Uuid, moved: bool, manifest: Option<ManifestWrite>, now: Time, opts: Options)
    requires Valid(v)
    ensures DeleteItem(v, id, moved, manifest, now, opts).Ok? <==>
            id in Live(v) && NextManifest(v, manifest, opts.maxItemBytes).Ok?
  {
    LiveGet(v, id);
  }

  /** What a deletion leaves of the item: its type and date of creation, dated
      of now, without content. */
  lemma DeleteItemLeaves(v: Vault, id: Uuid, moved: bool, manifest: Option<ManifestWrite>, now: Time, opts: Options, read: ItemView)
    requires Valid(v) && DeleteItem(v, id, moved, manifest, now, opts).Ok? && Get(Live(v), id) == Some(read)
    ensures var w := DeleteItem(v, id, moved, manifest, now, opts).value;
            && Find(w.items, id) == Some(Item(id, read.itemType, v.revision + 1, EMPTY, read.createdAt, now, Some(now)))
            && w.revision == v.revision + 1 && w.updatedAt == now
  {
    LiveGet(v, id);
    DeleteItemShape(v, id, moved, manifest, now, opts);
    FindUpsert(v.items, Tombstone(FindLive(v.items, id).value, v.revision + 1, now), id);
  }

  /** A deletion takes the item out of the full read, and out of the mirror of
      whoever asks for the changes since. */
  lemma DeleteItemRemoves(v: Vault, id: Uuid, moved: bool, manifest: Option<ManifestWrite>, now: Time, opts: Options)
    requires Valid(v) && DeleteItem(v, id, moved, manifest, now, opts).Ok?
    ensures var w := DeleteItem(v, id, moved, manifest, now, opts).value;
            && w.revision == v.revision + 1
            && Live(w) == Live(v) - {id}
            && Lookup(Items(w, Some(v.revision)).items, id).Some?
            && Lookup(Items(w, Some(v.revision)).items, id).value.deleted
  {
    var w := DeleteItem(v, id, moved, manifest, now, opts).value;
    DeleteItemKeeps(v, id, moved, manifest, now, opts);
    DeleteItemShape(v, id, moved, manifest, now, opts);
    AfterUpsert(v, w, Tombstone(FindLive(v.items, id).value, v.revision + 1, now), v.revision);
  }

  // ---- import ----------------------------------------------------------------------

  /** A batch is accepted as a whole: no manifest yet, and only new ids. */
  lemma ImportAccepted(v: Vault, req: ImportRequest, now: Time, opts: Options)
    ensures Import(v, req, now, opts).Ok? <==> v.manifest.None? && forall it :: it in req.items ==> Find(v.items, it.id).None?
    ensures v.manifest.None? && Import(v, req, now, opts).Err? ==>
              exists ids :: Import(v, req, now, opts) == Err(ItemExists(ids)) && forall id :: id in ids ==> Find(v.items, id).Some?
  {
    var taken := Filter(req.items, Present(v));
    assert Map(taken, IdOf()) == [] <==> taken == [];
    if taken != [] {
      assert taken[0] in taken;
      assert Find(v.items, taken[0].id).Some?;
    }
    forall id | id in Map(taken, IdOf()) ensures Find(v.items, id).Some? {
      var k :| 0 <= k < |taken| && Map(taken, IdOf())[k] == id;
      assert taken[k] in taken;
    }
  }

  /** The record of an imported item: what was sent, at a new revision. */
  ghost predicate StoredAs(w: Vault, it: ImportItem, after: int) {
    var r := Find(w.items, it.id);
    && r.Some? && after < r.value.revision <= w.revision
    && r.value == Item(it.id, it.itemType, r.value.revision, it.ciphertext, it.createdAt, it.updatedAt, it.deletedAt)
  }

  lemma ImportOneStores(v: Vault, it: ImportItem, now: Time, keep: nat)
    requires Valid(v) && v.manifest.None? && Find(v.items, it.id).None?
    ensures var w := ImportOne(v, it, now, keep);
            if Skipped(it, keep) then w == v else StoredAs(w, it, v.revision)
  {
    if !Skipped(it, keep) {
      var kept := LastK(it.versions, keep);
      ImportVersionsAdds(v, it.id, kept, now);
      var w := ImportOne(v, it, now, keep);
      var item := w.items[|v.items|];
      UpsertNew(v.items, item);
      FindUpsert(v.items, item, it.id);
    }
  }

  lemma {:induction false} ImportAllStores(v: Vault, items: seq<ImportItem>, now: Time, keep: nat, i: nat)
    requires Valid(v) && v.manifest.None? && NewIds(v, items) && i < |items|
    ensures var w := ImportAll(v, items, now, keep);
            if Skipped(items[i], keep) then Find(w.items, items[i].id).None? else StoredAs(w, items[i], v.revision)
  {
    var n := |items| - 1;
    var first, last := items[..n], items[n];
    var u := ImportAll(v, first, now, keep);
    NewIdsPrefix(v, items);
    ImportAllKeeps(v, first, now, keep);
    ImportOneKeeps(u, last, now, keep);
    if i == n {
      ImportOneStores(u, last, now, keep);
    } else {
      ImportAllStores(v, first, now, keep, i);
      assert items[i].id != last.id;
    }
  }

  /** What an accepted batch leaves: every item of it as it was sent, but the
      deleted ones when no history is kept; every other record as it was. */
  lemma ImportStores(v: Vault, req: ImportRequest, now: Time, opts: Options, id: Uuid)
    requires Valid(v) && CheckImport(req, opts).None? && Import(v, req, now, opts).Ok?
    ensures var w := Import(v, req, now, opts).value;
            && (forall i :: 0 <= i < |req.items| ==>
                  if req.items[i].deletedAt.Some? && opts.itemHistory == 0 then Find(w.items, req.items[i].id).None?
                  else StoredAs(w, req.items[i], v.revision))
            && (!Mentioned(req.items, id) ==> Find(w.items, id) == Find(v.items, id))
            && ManifestProto(w) == req.manifest
  {
    ImportAccepted(v, req, now, opts);
    BatchDistinct(req.items, {}, opts.maxItemBytes);
    assert NewIds(v, req.items);
    ImportAllKeeps(v, req.items, now, opts.itemHistory);
    forall i | 0 <= i < |req.items|
      ensures var w := Import(v, req, now, opts).value;
              if req.items[i].deletedAt.Some? && opts.itemHistory == 0 then Find(w.items, req.items[i].id).None?
              else StoredAs(w, req.items[i], v.revision)
    {
      ImportAllStores(v, req.items, now, opts.itemHistory, i);
    }
  }

  lemma {:induction false} ImportVersionsRevision(v: Vault, id: Uuid, versions: seq<ImportVersion>, now: Time)
    ensures ImportVersions(v, id, versions, now).revision == v.revision + |versions|
  {
    if versions != [] {
      ImportVersionsRevision(v, id, versions[..|versions| - 1], now);
    }
  }

  lemma {:induction false} ImportAllRevision(v: Vault, items: seq<ImportItem>, now: Time, keep: nat)
    ensures var w := ImportAll(v, items, now, keep);
            && v.revision <= w.revision
            && (w.revision == v.revision <==> forall it :: it in items ==> Skipped(it, keep))
  {
    if items != [] {
      var n := |items| - 1;
      var first, last := items[..n], items[n];
      ImportAllRevision(v, first, now, keep);
      ImportVersionsRevision(ImportAll(v, first, now, keep), last.id, LastK(last.versions, keep), now);
      assert items == first + [last];
    }
  }

  /** Without a manifest a cache keyed on the revision can go stale, exactly
      when a batch brings the manifest and stores none of its items, all of
      them deleted while no history is kept. */
  lemma ImportMovesOnlyTheManifest(v: Vault, req: ImportRequest, now: Time, opts: Options)
    requires Valid(v) && CheckImport(req, opts).None? && Import(v, req, now, opts).Ok?
    ensures var w := Import(v, req, now, opts).value;
            (w.revision == v.revision && ManifestProto(w) != ManifestProto(v))
            <==> req.manifest.Some? && (req.items == [] || (opts.itemHistory == 0 && forall it :: it in req.items ==> it.deletedAt.Some?))
  {
    ImportStores(v, req, now, opts, 0);
    ImportAllRevision(v, req.items, now, opts.itemHistory);
    var w := Import(v, req, now, opts).value;
    assert w.revision == ImportAll(v, req.items, now, opts.itemHistory).revision;
    assert ManifestProto(v).None?;
  }

  /** Recording a version of one item leaves the history of the others alone. */
  lemma KeepVersionOther(versions: seq<Version>, current: Item, now: Time, keep: nat, other: Uuid)
    requires other != current.id
    ensures Filter(KeepVersion(versions, current, now, keep), OfItem(other)) == Filter(versions, OfItem(other))
  {
    if keep > 0 {
      var all := if Recorded(versions, current.id, current.revision) then versions else versions + [Snapshot(current, now)];
      FilterTwice(all, AmongLast(all, current.id, keep), OfItem(other), OfItem(other));
      FilterConcat(versions, [Snapshot(current, now)], OfItem(other));
    }
  }
}
