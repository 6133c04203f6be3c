/** `gv`, which only reads: every opening checks each vault against its
    manifest and remembers the counters it saw, upwards only. */
module GvReader {
  import opened Wrappers
  import opened Seqs
  import opened Text
  import opened Crypto
  import Manifests

  datatype CachedItem = CachedItem(id: Uuid, ciphertext: Blob, deleted: bool)

  /** A vault of the cache: its key when the account opens it, its items, and
      its manifest with the revision announced. */
  datatype CachedVault = CachedVault(id: Uuid, key: Option<Key>, items: seq<CachedItem>, manifest: Manifests.Served)

  type Cache = seq<CachedVault>
  type Counters = map<Uuid, int>

  function NotDeleted(): CachedItem -> bool { (i: CachedItem) => !i.deleted }

  function PairOf(): CachedItem -> (string, Digest) { (i: CachedItem) => (UuidText(i.id), Sha256(i.ciphertext)) }

  function Pairs(v: CachedVault): Manifests.Pairs { Map(Filter(v.items, NotDeleted()), PairOf()) }

  function Lookup(m: Counters, id: Uuid): Option<int> { if id in m then Some(m[id]) else None }

  /** The manifest of a vault as it opens, when the account has its key. */
  function ManifestOf(v: CachedVault): Option<Manifest> {
    if v.key.None? then None else Manifests.Opened(v.key.value, UuidText(v.id), v.manifest)
  }

  /** The counter an opening retains: of a manifest that opens and carries the
      revision announced. */
  function Retained(v: CachedVault): Option<int> {
    var m := ManifestOf(v);
    if m.Some? && m.value.counter == v.manifest.value.0 then Some(m.value.counter) else None
  }

  /** The counters of an opening, vault after vault. */
  function CountersOf(cache: Cache): Counters {
    if cache == [] then map[]
    else
      var before := CountersOf(cache[..|cache| - 1]);
      var last := cache[|cache| - 1];
      if Retained(last).Some? then before[last.id := Retained(last).value] else before
  }

  /** A counter is written over only by a greater one. */
  function Raise(seen: Counters, counters: Counters): Counters {
    map id | id in seen.Keys + counters.Keys ::
      if id in counters && (id !in seen || seen[id] < counters[id]) then counters[id] else seen[id]
  }

  /** No problem was found in this vault. */
  ghost predicate Accepted(v: CachedVault, seen: Counters) {
    v.key.Some? && Manifests.Clean(v.key.value, UuidText(v.id), v.manifest, Pairs(v), Lookup(seen, v.id))
  }

  type Problems = seq<(Uuid, seq<Manifests.Problem>)>

  function HasKey(): CachedVault -> bool { (v: CachedVault) => v.key.Some? }

  /** The vault was verified, and what was found is reported for it: nothing
      exactly when it is accepted. */
  ghost predicate Reported(line: (Uuid, seq<Manifests.Problem>), v: CachedVault, seen: Counters) {
    && v.key.Some? && line.0 == v.id
    && Manifests.Report(line.1, v.key.value, UuidText(v.id), v.manifest, Pairs(v), Lookup(seen, v.id))
    && (line.1 == [] <==> Accepted(v, seen))
  }

  /** One line for each vault with a key, in the order of the cache. */
  ghost predicate Checked(problems: Problems, cache: Cache, seen: Counters) {
    var keyed := Filter(cache, HasKey());
    |problems| == |keyed| && forall k :: 0 <= k < |problems| ==> Reported(problems[k], keyed[k], seen)
  }

  lemma CheckedOneMore(problems: Problems, cache: Cache, i: nat, line: (Uuid, seq<Manifests.Problem>), seen: Counters)
    requires i < |cache| && Checked(problems, cache[..i], seen)
    ensures cache[i].key.None? ==> Checked(problems, cache[..i + 1], seen)
    ensures Reported(line, cache[i], seen) ==> Checked(problems + [line], cache[..i + 1], seen)
  {
    assert cache[..i + 1] == cache[..i] + [cache[i]];
    FilterConcat(cache[..i], [cache[i]], HasKey());
    FilterOfOne(cache[i]);
  }

  lemma FilterOfOne(v: CachedVault)
    ensures Filter([v], HasKey()) == if v.key.Some? then [v] else []
  {}

  class Gv {
    /** `manifests.json`, for one server. */
    var seen: Counters

    constructor ()
      ensures seen == map[]
    {
      seen := map[];
    }

    /** Check every vault, then retain the counters. */
    method Open(cache: Cache) returns (problems: Problems)
      modifies this
      ensures seen == Raise(old(seen), CountersOf(cache))
      ensures Checked(problems, cache, old(seen))
    {
      problems := [];
      var counters: Counters := map[];
      for i := 0 to |cache|
        invariant counters == CountersOf(cache[..i])
        invariant seen == old(seen)
        invariant Checked(problems, cache[..i], old(seen))
      {
        var v := cache[i];
        assert cache[..i + 1][..i] == cache[..i];
        ghost var before := problems;
        ghost var line := (v.id, []);
        if v.key.Some? {
          var m, found := Manifests.Verify(v.key.value, UuidText(v.id), v.manifest, Pairs(v), Lookup(seen, v.id));
          Manifests.NoProblemIsClean(found, v.key.value, UuidText(v.id), v.manifest, Pairs(v), Lookup(seen, v.id));
          if m.Some? && m.value.counter == v.manifest.value.0 {
            counters := counters[v.id := m.value.counter];
          }
          line := (v.id, found);
          problems := problems + [(v.id, found)];
        }
        CheckedOneMore(before, cache, i, line, old(seen));
      }
      assert cache[..|cache|] == cache;
      seen := Raise(seen, counters);
    }

    /** `gv sync --accept`: the counters become those served, even lower ones,
        and of the vaults that have none served nothing is remembered. */
    method AcceptManifests(cache: Cache)
      modifies this
      ensures forall id :: id in seen <==> exists v :: v in cache && v.id == id && v.manifest.Some?
      ensures OncePerId(cache) ==>
                forall v :: v in cache && v.manifest.Some? ==> v.id in seen && seen[v.id] == v.manifest.value.0
      ensures seen == Announced(cache)
    {
      var counters: Counters := map[];
      for i := 0 to |cache|
        invariant counters == Announced(cache[..i])
        invariant forall id :: id in counters <==> exists v :: v in cache[..i] && v.id == id && v.manifest.Some?
        invariant OncePerId(cache) ==>
                    forall j :: 0 <= j < i && cache[j].manifest.Some? ==>
                      cache[j].id in counters && counters[cache[j].id] == cache[j].manifest.value.0
      {
        TakeOneMore(cache, i);
        if cache[i].manifest.Some? {
          counters := counters[cache[i].id := cache[i].manifest.value.0];
        }
      }
      assert cache[..|cache|] == cache;
      seen := counters;
    }
  }

  /** The revisions a cache announces. */
  function Announced(cache: Cache): Counters {
    if cache == [] then map[]
    else
      var before := Announced(cache[..|cache| - 1]);
      var last := cache[|cache| - 1];
      if last.manifest.Some? then before[last.id := last.manifest.value.0] else before
  }

  lemma {:induction false} AnnouncedIs(cache: Cache, v: CachedVault)
    requires OncePerId(cache) && v in cache
    ensures Lookup(Announced(cache), v.id) == if v.manifest.Some? then Some(v.manifest.value.0) else None
  {
    var front, last := cache[..|cache| - 1], cache[|cache| - 1];
    if v == last {
      NotAnnounced(front, v.id);
    } else {
      var k :| 0 <= k < |cache| && cache[k] == v;
      assert front[k] == v;
      AnnouncedIs(front, v);
    }
  }

  lemma {:induction false} NotAnnounced(cache: Cache, id: Uuid)
    requires forall v :: v in cache ==> v.id != id
    ensures id !in Announced(cache)
  {
    if cache != [] {
      assert cache[|cache| - 1] in cache;
      NotAnnounced(cache[..|cache| - 1], id);
    }
  }

  /** After that a vault of this cache is accepted exactly when one who
      remembers nothing accepts it: a backup put back is no longer a rollback,
      and every other problem stays. */
  lemma OnlyRollbacksAreAccepted(cache: Cache, v: CachedVault)
    requires OncePerId(cache) && v in cache
    ensures Accepted(v, Announced(cache)) <==> Accepted(v, map[])
  {
    AnnouncedIs(cache, v);
    if v.key.Some? {
      Manifests.CleanMeans(v.key.value, UuidText(v.id), v.manifest, Pairs(v), Lookup(Announced(cache), v.id));
      Manifests.CleanMeans(v.key.value, UuidText(v.id), v.manifest, Pairs(v), Lookup(map[], v.id));
    }
  }

  // ---- whatever the server serves --------------------------------------------------------

  /** The counters remembered after a series of openings, restarts included. */
  function SeenAfter(caches: seq<Cache>): Counters {
    if caches == [] then map[] else Raise(SeenAfter(caches[..|caches| - 1]), CountersOf(caches[|caches| - 1]))
  }

  /** Only clients hold the key of a vault: a manifest that opens is one of
      those some client sealed. */
  ghost predicate Unforged(cache: Cache, sealed: map<Uuid, set<Manifest>>) {
    forall v :: v in cache && ManifestOf(v).Some? ==> v.id in sealed && ManifestOf(v).value in sealed[v.id]
  }

  ghost predicate OncePerId(cache: Cache) {
    forall i, j :: 0 <= i < j < |cache| ==> cache[i].id != cache[j].id
  }

  lemma {:induction false} CounterIsRetained(cache: Cache, v: CachedVault)
    requires OncePerId(cache) && v in cache
    ensures Lookup(CountersOf(cache), v.id) == Retained(v)
  {
    var front, last := cache[..|cache| - 1], cache[|cache| - 1];
    if v == last {
      NotInCounters(front, v.id);
    } else {
      var k :| 0 <= k < |cache| && cache[k] == v;
      assert front[k] == v;
      CounterIsRetained(front, v);
    }
  }

  lemma {:induction false} NotInCounters(cache: Cache, id: Uuid)
    requires forall v :: v in cache ==> v.id != id
    ensures id !in CountersOf(cache)
  {
    if cache != [] {
      assert cache[|cache| - 1] in cache;
      NotInCounters(cache[..|cache| - 1], id);
    }
  }

  /** What is remembered of a vault only grows. */
  lemma {:induction false} SeenGrows(caches: seq<Cache>, k: nat, id: Uuid)
    requires k <= |caches| && id in SeenAfter(caches[..k])
    ensures id in SeenAfter(caches) && SeenAfter(caches)[id] >= SeenAfter(caches[..k])[id]
    decreases |caches| - k
  {
    if k == |caches| {
      assert caches[..k] == caches;
    } else {
      assert caches[..k + 1][..k] == caches[..k];
      SeenGrows(caches, k + 1, id);
    }
  }

  /** Rollback is bounded, across restarts and whatever the server does: a view
      accepted at some opening is exactly what a client once sealed, at a
      counter no lower than any retained at an earlier opening. */
  lemma AcceptedViewsAreRecent(caches: seq<Cache>, sealed: map<Uuid, set<Manifest>>, k: nat, n: nat,
                               v: CachedVault, w: CachedVault)
    requires k < n < |caches| && v in caches[k] && w in caches[n] && w.id == v.id
    requires OncePerId(caches[k]) && Unforged(caches[n], sealed)
    requires Retained(v).Some? && Retained(v).value > 0
    requires Accepted(w, SeenAfter(caches[..n]))
    ensures w.id in sealed && exists m ::
              && m in sealed[w.id]
              && Manifests.Lists(m, Pairs(w))
              && m.counter >= Retained(v).value
              && w.manifest.Some? && m.counter == w.manifest.value.0
  {
    CounterIsRetained(caches[k], v);
    assert caches[..k + 1][..k] == caches[..k];
    assert v.id in SeenAfter(caches[..k + 1]) && SeenAfter(caches[..k + 1])[v.id] >= Retained(v).value;
    assert caches[..n][..k + 1] == caches[..k + 1];
    SeenGrows(caches[..n], k + 1, v.id);
    Manifests.CleanMeans(w.key.value, UuidText(w.id), w.manifest, Pairs(w), Lookup(SeenAfter(caches[..n]), w.id));
    assert ManifestOf(w).Some?;
  }

  /** An item not deleted is served under that identifier with that digest. */
  ghost predicate Serves(v: CachedVault, s: string, d: Digest) {
    exists i :: i in v.items && !i.deleted && s == UuidText(i.id) && d == Sha256(i.ciphertext)
  }

  /** A vault is accepted exactly when it has no manifest and none was seen
      before, or its manifest opens, carries the counter announced, is no older
      than the last one seen, and lists the items not deleted, each with the
      digest of what is served, and no other. */
  lemma AcceptedExactly(v: CachedVault, seen: Counters)
    ensures Accepted(v, seen) <==>
            && v.key.Some?
            && if v.manifest.None? then v.id !in seen || seen[v.id] <= 0
               else exists m :: Manifests.OpenManifest(v.key.value, UuidText(v.id), v.manifest.value.1) == Ok(m)
                      && m.counter == v.manifest.value.0 && (v.id in seen ==> seen[v.id] <= m.counter)
                      && forall s, d :: Serves(v, s, d) <==> s in m.items && m.items[s] == d
  {
    if v.key.Some? {
      Manifests.CleanMeans(v.key.value, UuidText(v.id), v.manifest, Pairs(v), Lookup(seen, v.id));
      forall s, d ensures Manifests.ServedAs(Pairs(v), s, d) <==> Serves(v, s, d) {
        PairMeans(v, s, d);
      }
      AcceptedOnServed(v, seen);
    }
  }

  lemma AcceptedOnServed(v: CachedVault, seen: Counters)
    requires v.key.Some? && forall s, d :: Manifests.ServedAs(Pairs(v), s, d) <==> Serves(v, s, d)
    requires var m := ManifestOf(v);
             Accepted(v, seen) <==>
             if v.manifest.None? then Lookup(seen, v.id).None? || Lookup(seen, v.id).value <= 0
             else m.Some? && m.value.counter == v.manifest.value.0
                  && (Lookup(seen, v.id).Some? ==> Lookup(seen, v.id).value <= m.value.counter) && Manifests.Lists(m.value, Pairs(v))
    ensures Accepted(v, seen) <==>
            if v.manifest.None? then v.id !in seen || seen[v.id] <= 0
            else exists m :: Manifests.OpenManifest(v.key.value, UuidText(v.id), v.manifest.value.1) == Ok(m)
                   && m.counter == v.manifest.value.0 && (v.id in seen ==> seen[v.id] <= m.counter)
                   && forall s, d :: Serves(v, s, d) <==> s in m.items && m.items[s] == d
  {}

  lemma PairMeans(v: CachedVault, s: string, d: Digest)
    ensures Manifests.ServedAs(Pairs(v), s, d) <==> Serves(v, s, d)
  {
    var chosen := Filter(v.items, NotDeleted());
    if Manifests.ServedAs(Pairs(v), s, d) {
      var k :| 0 <= k < |Pairs(v)| && Pairs(v)[k] == (s, d);
      assert chosen[k] in chosen;
    }
    if Serves(v, s, d) {
      var i :| i in v.items && !i.deleted && s == UuidText(i.id) && d == Sha256(i.ciphertext);
      assert i in chosen;
      var k :| 0 <= k < |chosen| && chosen[k] == i;
      assert Pairs(v)[k] == (s, d);
    }
  }

  /** In some opening the vault was served a manifest that opened at the
      counter announced, `counter`. */
  ghost predicate SawAt(caches: seq<Cache>, id: Uuid, counter: int) {
    exists k :: 0 <= k < |caches| && ServedIn(caches[k], id, counter)
  }

  ghost predicate ServedIn(cache: Cache, id: Uuid, counter: int) { exists v :: v in cache && ServedWith(v, id, counter) }

  ghost predicate ServedWith(v: CachedVault, id: Uuid, counter: int) {
    && v.id == id && v.key.Some? && v.manifest.Some? && v.manifest.value.0 == counter
    && exists m :: Manifests.OpenManifest(v.key.value, UuidText(id), v.manifest.value.1) == Ok(m) && m.counter == counter
  }

  lemma {:induction false} CountersServed(cache: Cache, id: Uuid)
    requires OncePerId(cache)
    ensures forall counter :: ServedIn(cache, id, counter) <==> Lookup(CountersOf(cache), id) == Some(counter)
  {
    forall counter ensures ServedIn(cache, id, counter) <==> Lookup(CountersOf(cache), id) == Some(counter) {
      if v :| v in cache && v.id == id {
        CounterIsRetained(cache, v);
        forall u | u in cache && u.id == id ensures u == v {}
      } else {
        NotInCounters(cache, id);
      }
    }
  }

  /** What is remembered of a vault is the highest counter it was ever served
      with, in a manifest that opened. */
  lemma {:induction false} SeenIsTheHighest(caches: seq<Cache>, id: Uuid)
    requires forall k :: 0 <= k < |caches| ==> OncePerId(caches[k])
    ensures id in SeenAfter(caches) ==> SawAt(caches, id, SeenAfter(caches)[id])
    ensures forall counter :: SawAt(caches, id, counter) ==> id in SeenAfter(caches) && counter <= SeenAfter(caches)[id]
  {
    if caches != [] {
      var front, last := caches[..|caches| - 1], caches[|caches| - 1];
      assert caches == front + [last];
      SeenIsTheHighest(front, id);
      RaisedBy(front, last, id);
      if id in SeenAfter(caches) {
        SawOneMore(front, last, id, SeenAfter(caches)[id]);
      }
      forall counter | SawAt(caches, id, counter) ensures id in SeenAfter(caches) && counter <= SeenAfter(caches)[id] {
        SawOneMore(front, last, id, counter);
      }
    }
  }

  /** One more opening. */
  lemma RaisedBy(front: seq<Cache>, last: Cache, id: Uuid)
    requires OncePerId(last)
    ensures var before, after := SeenAfter(front), SeenAfter(front + [last]);
            && (id in after ==> (id in before && after[id] == before[id]) || ServedIn(last, id, after[id]))
            && (id in before ==> id in after && before[id] <= after[id])
            && (forall counter :: ServedIn(last, id, counter) ==> id in after && counter <= after[id])
  {
    CountersServed(last, id);
    assert (front + [last])[..|front|] == front;
  }

  lemma SawOneMore(front: seq<Cache>, last: Cache, id: Uuid, counter: int)
    ensures SawAt(front + [last], id, counter) <==> SawAt(front, id, counter) || ServedIn(last, id, counter)
  {
    var all := front + [last];
    assert all[|front|] == last;
    forall k | 0 <= k < |front| ensures all[k] == front[k] {}
  }
}
