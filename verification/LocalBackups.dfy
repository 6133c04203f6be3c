/** The copies a local vault keeps of itself: names that carry a date and a
    rank, one at most per interval, the newest kept. */
module LocalBackups {
  import opened Wrappers
  import opened Seqs
  import opened Text

  const PREFIX := "coffre-"
  const SUFFIX := ".json"

  /** Whole seconds of the years 0 to 9999. */
  type Stamp = t: int | -62167219200 <= t < 253402300800

  /** A clock reading, in nanoseconds. */
  type Instant = n: int | -62167219200000000000 <= n < 253402300800000000000

  function Seconds(now: Instant): Stamp { now / 1_000_000_000 }

  /** Dates written as eight digits, a dash and six digits, and read back. */
  datatype Calendar = Calendar(render: Stamp -> string, parse: string -> Option<Stamp>)

  predicate Dated(s: string) {
    |s| == 15 && s[8] == '-' && forall i :: 0 <= i < 15 && i != 8 ==> IsDigit(s[i])
  }

  ghost predicate Faithful(c: Calendar) {
    forall t: Stamp :: Dated(c.render(t)) && c.parse(c.render(t)) == Some(t)
  }

  // ---- names ----------------------------------------------------------------------------

  function Name(c: Calendar, t: Stamp, rank: nat): string {
    PREFIX + c.render(t) + (if rank <= 1 then "" else "-" + Decimal(rank)) + SUFFIX
  }

  /** What is before and after the last dash. */
  function SplitLast(s: string): (r: Option<(string, string)>)
    ensures r.Some? ==> s == r.value.0 + "-" + r.value.1 && '-' !in r.value.1
    ensures r.None? ==> '-' !in s
  {
    if s == "" then None
    else
      var n := |s| - 1;
      assert s == s[..n] + [s[n]];
      if s[n] == '-' then Some((s[..n], ""))
      else
        var r := SplitLast(s[..n]);
        if r.None? then None else Some((r.value.0, r.value.1 + [s[n]]))
  }

  function Stamped(c: Calendar, stamp: string, rank: nat): Option<(Stamp, nat)> {
    var at := c.parse(stamp);
    if at.None? then None else Some((at.value, rank))
  }

  /** The date of a copy and its rank in the second; the rank fits 32 bits. */
  function ParseName(c: Calendar, name: string): Option<(Stamp, nat)> {
    if |name| < |PREFIX| + |SUFFIX| || name[..|PREFIX|] != PREFIX || name[|name| - |SUFFIX|..] != SUFFIX then None
    else
      var stamp := name[|PREFIX|..|name| - |SUFFIX|];
      var split := SplitLast(stamp);
      if split.Some? && |split.value.0| == 15 && split.value.1 != "" && AllDigits(split.value.1) then
        var rank := ParseDecimal(split.value.1);
        if rank >= 0x1_0000_0000 then None else Stamped(c, split.value.0, rank)
      else Stamped(c, stamp, 1)
  }

  /** A copy is called coffre-DATE.json, or coffre-DATE-RANK.json. */
  lemma NameInFull(c: Calendar, t: Stamp, rank: nat)
    ensures Name(c, t, rank) == "coffre-" + c.render(t) + (if rank <= 1 then "" else "-" + Decimal(rank)) + ".json"
  {}

  /** A date of fifteen characters, a dash and some digits. */
  predicate Ranks(text: string, date: string, digits: string) {
    text == date + "-" + digits && |date| == 15 && digits != "" && AllDigits(digits)
  }

  /** Exactly these names are read: a date between the two ends, of rank 1, or
      with a rank that 32 bits hold. */
  lemma ReadExactly(c: Calendar, name: string, t: Stamp, rank: nat)
    ensures ParseName(c, name) == Some((t, rank)) <==>
            exists text :: name == "coffre-" + text + ".json"
              && ((rank == 1 && c.parse(text) == Some(t) && forall date, digits :: !Ranks(text, date, digits))
                  || exists date, digits :: Ranks(text, date, digits) && c.parse(date) == Some(t)
                                            && ParseDecimal(digits) == rank < 0x1_0000_0000)
  {
    forall text | name == "coffre-" + text + ".json"
      ensures ParseName(c, name) == Some((t, rank)) <==>
              ((rank == 1 && c.parse(text) == Some(t) && forall date, digits :: !Ranks(text, date, digits))
               || exists date, digits :: Ranks(text, date, digits) && c.parse(date) == Some(t)
                                         && ParseDecimal(digits) == rank < 0x1_0000_0000)
    {
      Between(text);
      SplitRanks(text);
    }
    if ParseName(c, name).Some? {
      var text := name[|PREFIX|..|name| - |SUFFIX|];
      assert name == "coffre-" + text + ".json";
    }
  }

  /** A text is cut into a date and a rank in one way at most. */
  lemma SplitRanks(text: string)
    ensures forall date, digits :: Ranks(text, date, digits) <==>
              SplitLast(text) == Some((date, digits)) && |date| == 15 && digits != "" && AllDigits(digits)
  {
    forall date, digits | Ranks(text, date, digits) ensures SplitLast(text) == Some((date, digits)) {
      SplitAt(date, digits);
    }
  }

  lemma {:induction false} SplitAt(head: string, tail: string)
    requires '-' !in tail
    ensures SplitLast(head + "-" + tail) == Some((head, tail))
  {
    var s := head + "-" + tail;
    if tail == "" {
      assert s[..|s| - 1] == head;
    } else {
      var n := |tail| - 1;
      SplitAt(head, tail[..n]);
      assert s[..|s| - 1] == head + "-" + tail[..n];
      assert tail == tail[..n] + [tail[n]];
    }
  }

  lemma Between(stamp: string)
    ensures var name := PREFIX + stamp + SUFFIX;
            name[..|PREFIX|] == PREFIX && name[|name| - |SUFFIX|..] == SUFFIX && name[|PREFIX|..|name| - |SUFFIX|] == stamp
  {}

  /** A name says its date and rank, alone in its second or not. */
  lemma NamesAreRead(c: Calendar, t: Stamp, rank: nat)
    requires Faithful(c) && 1 <= rank < 0x1_0000_0000
    ensures ParseName(c, Name(c, t, rank)) == Some((t, rank))
  {
    var date := c.render(t);
    assert Dated(date) && c.parse(date) == Some(t);
    if rank == 1 {
      Between(date);
      assert Name(c, t, rank) == PREFIX + date + SUFFIX;
      assert date == date[..8] + "-" + date[9..];
      SplitAt(date[..8], date[9..]);
    } else {
      var digits := Decimal(rank);
      Between(date + "-" + digits);
      assert Name(c, t, rank) == PREFIX + (date + "-" + digits) + SUFFIX;
      assert '-' !in digits;
      SplitAt(date, digits);
      ParseOfDecimal(rank);
    }
  }

  // ---- the directory -----------------------------------------------------------------------

  datatype File = File(name: string, data: seq<byte>)

  datatype Backup = Backup(at: Stamp, rank: nat, file: File)

  function IsBackup(c: Calendar): File -> bool { (f: File) => ParseName(c, f.name).Some? }

  function AsBackup(c: Calendar, f: File): Backup
    requires ParseName(c, f.name).Some?
  {
    Backup(ParseName(c, f.name).value.0, ParseName(c, f.name).value.1, f)
  }

  function Parsed(c: Calendar, files: seq<File>): seq<Backup> {
    if files == [] then []
    else (if IsBackup(c)(files[0]) then [AsBackup(c, files[0])] else []) + Parsed(c, files[1..])
  }

  function NewestFirst(): (Backup, Backup) -> bool {
    (a: Backup, b: Backup) => a.at > b.at || (a.at == b.at && a.rank >= b.rank)
  }

  /** The copies, the newest first; other files are no copies. */
  function Backups(c: Calendar, files: seq<File>): seq<Backup> { Sort(Parsed(c, files), NewestFirst()) }

  function Names(files: seq<File>): set<string> { set f | f in files :: f.name }

  /** The last copy is as old as the interval; one of the future has no age. */
  predicate Due(backups: seq<Backup>, now: Instant, every: nat) {
    backups == []
    || (var since := now - backups[0].at * 1_000_000_000; (if since < 0 then 0 else since) >= every)
  }

  /** The first rank free in this second. */
  function FreeRank(c: Calendar, names: set<string>, t: Stamp, n: nat): nat
    requires n >= 1
    decreases |names - Tried(c, t, n)|
  {
    if Name(c, t, n) in names then
      TriedMore(c, names, t, n);
      FreeRank(c, names, t, n + 1)
    else n
  }

  ghost predicate TakenBefore(c: Calendar, names: set<string>, t: Stamp, n: nat) {
    forall i :: 1 <= i < n ==> Name(c, t, i) in names
  }

  ghost predicate FirstFree(c: Calendar, names: set<string>, t: Stamp, n: nat) {
    Name(c, t, n) !in names && TakenBefore(c, names, t, n)
  }

  function Tried(c: Calendar, t: Stamp, n: nat): set<string> { set i | 1 <= i < n :: Name(c, t, i) }

  lemma NamesDiffer(c: Calendar, t: Stamp, m: nat, n: nat)
    requires 1 <= m < n
    ensures Name(c, t, m) != Name(c, t, n)
  {
    var a, b := PREFIX + c.render(t), SUFFIX;
    var x, y := (if m <= 1 then "" else "-" + Decimal(m)), "-" + Decimal(n);
    if Name(c, t, m) == Name(c, t, n) {
      assert a + x + b == a + y + b;
      assert (a + x + b)[|a|..|a + x + b| - |b|] == x;
      assert (a + y + b)[|a|..|a + y + b| - |b|] == y;
      assert x == y;
      assert m > 1 ==> x[1..] == Decimal(m);
      assert y[1..] == Decimal(n);
      DecimalInjective(m, n);
    }
  }

  lemma TriedMore(c: Calendar, names: set<string>, t: Stamp, n: nat)
    requires n >= 1 && Name(c, t, n) in names
    ensures |names - Tried(c, t, n + 1)| < |names - Tried(c, t, n)|
  {
    var name := Name(c, t, n);
    assert Tried(c, t, n + 1) == Tried(c, t, n) + {name};
    forall i | 1 <= i < n ensures Name(c, t, i) != name { NamesDiffer(c, t, i, n); }
    assert name in names - Tried(c, t, n);
    assert names - Tried(c, t, n + 1) == (names - Tried(c, t, n)) - {name};
  }

  function NamesOf(backups: seq<Backup>): set<string> { set b | b in backups :: b.file.name }

  function NameOf(): Backup -> string { (b: Backup) => b.file.name }

  function NotNamed(names: set<string>): File -> bool { (f: File) => f.name !in names }

  /** The oldest go. */
  function Pruned(c: Calendar, files: seq<File>, keep: nat): seq<File> {
    var all := Backups(c, files);
    if |all| <= keep then files else Filter(files, NotNamed(NamesOf(all[keep..])))
  }

  function NewFile(c: Calendar, files: seq<File>, now: Instant, data: seq<byte>): File {
    File(Name(c, Seconds(now), FreeRank(c, Names(files), Seconds(now), 1)), data)
  }

  /** The directory after the call; `saved` is what was copied, None when the
      copy failed. */
  function After(c: Calendar, files: seq<File>, now: Instant, every: nat, keep: nat, saved: Option<seq<byte>>): seq<File> {
    if keep == 0 || !Due(Backups(c, files), now, every) then files
    else Pruned(c, if saved.Some? then files + [NewFile(c, files, now, saved.value)] else files, keep)
  }

  lemma OneNameMore(files: seq<File>, all: seq<Backup>, k: nat)
    requires k < |all|
    ensures Filter(Filter(files, NotNamed(NamesOf(all[..k]))), NotNamed({all[k].file.name}))
            == Filter(files, NotNamed(NamesOf(all[..k + 1])))
  {
    var gone, name := NamesOf(all[..k]), all[k].file.name;
    assert all[..k + 1] == all[..k] + [all[k]];
    assert NamesOf(all[..k + 1]) == gone + {name};
    FilterTwice(files, NotNamed(gone), NotNamed({name}), NotNamed(gone + {name}));
  }

  class Directory {
    var files: seq<File>
    const calendar: Calendar

    constructor (calendar: Calendar)
      ensures this.calendar == calendar && files == []
    {
      this.calendar := calendar;
      files := [];
    }

    method Delete(gone: seq<Backup>)
      modifies this
      ensures files == Filter(old(files), NotNamed(NamesOf(gone)))
    {
      FilterAll(files, NotNamed(NamesOf(gone[..0])));
      for k := 0 to |gone|
        invariant files == Filter(old(files), NotNamed(NamesOf(gone[..k])))
      {
        OneNameMore(old(files), gone, k);
        files := Filter(files, NotNamed({gone[k].file.name}));
      }
      assert gone[..|gone|] == gone;
    }

    /** The copies that follow the first `keep` go. */
    method Prune(keep: nat)
      modifies this
      ensures files == Pruned(calendar, old(files), keep)
    {
      var all := Backups(calendar, files);
      if |all| > keep {
        Delete(all[keep..]);
      }
    }

    /** The first rank free in this second. */
    method FreeName(t: Stamp) returns (n: nat)
      ensures n >= 1 && n == FreeRank(calendar, Names(files), t, 1)
      ensures FirstFree(calendar, Names(files), t, n)
    {
      n := 1;
      var names := Names(files);
      while Name(calendar, t, n) in names
        invariant n >= 1
        invariant FreeRank(calendar, names, t, n) == FreeRank(calendar, names, t, 1)
        invariant TakenBefore(calendar, names, t, n)
        decreases |names - Tried(calendar, t, n)|
      {
        TriedMore(calendar, names, t, n);
        n := n + 1;
      }
    }

    /** Before a write: a copy when the last one is old enough, then the
        oldest go. */
    method MaybeBackup(now: Instant, every: nat, keep: nat, saved: Option<seq<byte>>) returns (ok: bool)
      modifies this
      ensures files == After(calendar, old(files), now, every, keep, saved)
      ensures !ok <==> keep > 0 && Due(Backups(calendar, old(files)), now, every) && saved.None?
    {
      if keep == 0 {
        return true;
      }
      if !Due(Backups(calendar, files), now, every) {
        return true;
      }
      var n := FreeName(Seconds(now));
      if saved.Some? {
        files := files + [File(Name(calendar, Seconds(now), n), saved.value)];
      }
      Prune(keep);
      return saved.Some?;
    }
  }

  // ---- what is kept -------------------------------------------------------------------------

  lemma {:induction false} ParsedConcat(c: Calendar, a: seq<File>, b: seq<File>)
    ensures Parsed(c, a + b) == Parsed(c, a) + Parsed(c, b)
  {
    if a == [] {
      assert a + b == b;
    } else {
      assert (a + b)[1..] == a[1..] + b;
      ParsedConcat(c, a[1..], b);
    }
  }

  lemma {:induction false} ParsedMembers(c: Calendar, files: seq<File>, b: Backup)
    ensures b in Parsed(c, files) <==> b.file in files && IsBackup(c)(b.file) && b == AsBackup(c, b.file)
  {
    if files != [] {
      ParsedMembers(c, files[1..], b);
      assert files == [files[0]] + files[1..];
    }
  }

  function NotFrom(names: set<string>): Backup -> bool { (b: Backup) => b.file.name !in names }

  lemma {:induction false} ParsedFiltered(c: Calendar, files: seq<File>, names: set<string>)
    ensures Parsed(c, Filter(files, NotNamed(names))) == Filter(Parsed(c, files), NotFrom(names))
  {
    if files != [] {
      var f, t := files[0], files[1..];
      ParsedFiltered(c, t, names);
      FilterConcat(One(c, f), Parsed(c, t), NotFrom(names));
      OneFiltered(c, f, names);
      ParsedFirst(c, f, Filter(t, NotNamed(names)));
    }
  }

  function One(c: Calendar, f: File): seq<Backup> { if IsBackup(c)(f) then [AsBackup(c, f)] else [] }

  lemma OneFiltered(c: Calendar, f: File, names: set<string>)
    ensures Filter(One(c, f), NotFrom(names)) == if f.name in names then [] else One(c, f)
  {}

  lemma ParsedFirst(c: Calendar, f: File, t: seq<File>)
    ensures Parsed(c, [f] + t) == One(c, f) + Parsed(c, t)
  {
    assert ([f] + t)[1..] == t;
  }

  lemma NewestFirstIsTotal()
    ensures TotalOrder(NewestFirst())
  {}

  /** A copy newer than all the others comes first. */
  lemma {:induction false} SortWithNewest(s: seq<Backup>, x: Backup)
    requires forall b :: b in s ==> b.at < x.at
    ensures Sort(s + [x], NewestFirst()) == [x] + Sort(s, NewestFirst())
  {
    var le := NewestFirst();
    if s == [] {
      assert s + [x] == [x];
    } else {
      assert (s + [x])[1..] == s[1..] + [x];
      SortWithNewest(s[1..], x);
      assert s[0] in s;
      assert ([x] + Sort(s[1..], le))[1..] == Sort(s[1..], le);
    }
  }

  /** In a sorted list, taking out the names of the end leaves the beginning. */
  lemma {:induction false} FilterEnd(s: seq<Backup>, keep: nat)
    requires keep <= |s| && DistinctBy(s, NameOf())
    ensures Filter(s, NotFrom(NamesOf(s[keep..]))) == s[..keep]
  {
    var gone := NotFrom(NamesOf(s[keep..]));
    assert s == s[..keep] + s[keep..];
    FilterConcat(s[..keep], s[keep..], gone);
    forall x | x in s[..keep] ensures gone(x) {
      var i :| 0 <= i < keep && s[i] == x;
      forall b | b in s[keep..] ensures b.file.name != x.file.name {
        var j :| keep <= j < |s| && s[j] == b;
        assert NameOf()(s[i]) != NameOf()(s[j]);
      }
    }
    FilterAll(s[..keep], gone);
    FilterNone(s[keep..], gone);
  }

  /** No name twice, as in any directory. */
  ghost predicate DistinctFiles(files: seq<File>) {
    forall i, j :: 0 <= i < j < |files| ==> files[i].name != files[j].name
  }

  lemma {:induction false} ParsedDistinct(c: Calendar, files: seq<File>)
    requires DistinctFiles(files)
    ensures DistinctBy(Parsed(c, files), NameOf())
  {
    if files != [] {
      var t := files[1..];
      assert forall i, j :: 0 <= i < j < |t| ==> t[i] == files[i + 1] && t[j] == files[j + 1];
      ParsedDistinct(c, t);
      forall b | b in Parsed(c, t) ensures b.file.name != files[0].name {
        ParsedMembers(c, t, b);
        var i :| 0 <= i < |t| && t[i] == b.file;
        assert files[i + 1] == b.file;
      }
      assert forall i :: 0 <= i < |Parsed(c, t)| ==> Parsed(c, t)[i] in Parsed(c, t);
    }
  }

  function Newest(all: seq<Backup>, keep: nat): seq<Backup> { if |all| <= keep then all else all[..keep] }

  /** Pruning keeps the newest copies, and all the other files. */
  lemma PrunedKeepsTheNewest(c: Calendar, files: seq<File>, keep: nat)
    requires DistinctFiles(files)
    ensures Backups(c, Pruned(c, files, keep)) == Newest(Backups(c, files), keep)
    ensures forall f :: f in files && !IsBackup(c)(f) ==> f in Pruned(c, files, keep)
    ensures forall f :: f in Pruned(c, files, keep) ==> f in files
    ensures DistinctFiles(Pruned(c, files, keep))
  {
    var all := Backups(c, files);
    ParsedDistinct(c, files);
    DistinctPermuted(Parsed(c, files), all, NameOf());
    NewestFirstIsTotal();
    if |all| > keep {
      var names := NamesOf(all[keep..]);
      ParsedFiltered(c, files, names);
      FilterSort(Parsed(c, files), NotFrom(names), NewestFirst());
      FilterEnd(all, keep);
      FilterPairwise(files, NotNamed(names), (f: File, g: File) => f.name != g.name);
      forall f | f in files && !IsBackup(c)(f) ensures f.name !in names {
        NotACopy(c, files, f, all[keep..]);
      }
    }
  }

  lemma NotACopy(c: Calendar, files: seq<File>, f: File, some: seq<Backup>)
    requires !IsBackup(c)(f) && forall b :: b in some ==> b in Backups(c, files)
    ensures f.name !in NamesOf(some)
  {
    SortDistinctMembers(c, files);
    forall b | b in some ensures b.file.name != f.name {
      ParsedMembers(c, files, b);
    }
  }

  lemma SortDistinctMembers(c: Calendar, files: seq<File>)
    ensures forall b :: b in Backups(c, files) <==> b in Parsed(c, files)
  {
    SameMembers(Backups(c, files), Parsed(c, files));
  }

  lemma NewestFirstAll(c: Calendar, files: seq<File>)
    ensures forall i, j :: 0 <= i < j < |Backups(c, files)| ==> Backups(c, files)[i].at >= Backups(c, files)[j].at
  {
    NewestFirstIsTotal();
    var all := Backups(c, files);
    SortSorted(Parsed(c, files), NewestFirst());
    forall i, j | 0 <= i < j < |all| ensures all[i].at >= all[j].at {
      assert NewestFirst()(all[i], all[j]);
    }
  }

  /** A copy is due exactly when every copy there is as old as the interval, one
      of the future having no age. */
  lemma DueExactly(c: Calendar, files: seq<File>, now: Instant, every: nat)
    ensures Due(Backups(c, files), now, every) <==>
            forall f :: f in files && ParseName(c, f.name).Some? ==>
              every == 0 || now - 1_000_000_000 * ParseName(c, f.name).value.0 >= every
  {
    NewestFirstAll(c, files);
    SortDistinctMembers(c, files);
    var all := Backups(c, files);
    forall f | f in files && ParseName(c, f.name).Some? ensures AsBackup(c, f) in all {
      ParsedMembers(c, files, AsBackup(c, f));
    }
    forall b | b in all ensures b.file in files && ParseName(c, b.file.name) == Some((b.at, b.rank)) {
      ParsedMembers(c, files, b);
    }
    DueAll(all, now, every);
  }

  lemma DueAll(all: seq<Backup>, now: Instant, every: nat)
    requires forall i, j :: 0 <= i < j < |all| ==> all[i].at >= all[j].at
    ensures Due(all, now, every) <==> forall b :: b in all ==> every == 0 || now - 1_000_000_000 * b.at >= every
  {
    if all != [] {
      assert all[0] in all;
      forall b | b in all ensures b.at <= all[0].at {
        var i :| 0 <= i < |all| && all[i] == b;
      }
    }
  }

  /** When the interval is longer than what has passed of the second, and over
      since the last copy, the clock is past all of them, by the whole seconds
      of the interval. */
  lemma DueIsLater(c: Calendar, files: seq<File>, now: Instant, every: nat)
    requires now % 1_000_000_000 < every && Due(Backups(c, files), now, every)
    ensures forall b :: b in Backups(c, files) ==> b.at < Seconds(now) && Seconds(now) - b.at >= every / 1_000_000_000
  {
    NewestFirstAll(c, files);
    var all := Backups(c, files);
    forall b | b in all ensures b.at < Seconds(now) && Seconds(now) - b.at >= every / 1_000_000_000 {
      var i :| 0 <= i < |all| && all[i] == b;
      assert all[0].at >= b.at;
    }
  }

  lemma NameIsFree(c: Calendar, files: seq<File>, t: Stamp)
    requires Faithful(c) && forall b :: b in Backups(c, files) ==> b.at < t
    ensures Name(c, t, 1) !in Names(files) && FreeRank(c, Names(files), t, 1) == 1
  {
    NamesAreRead(c, t, 1);
    SortDistinctMembers(c, files);
    forall g | g in files ensures g.name != Name(c, t, 1) {
      if g.name == Name(c, t, 1) {
        ParsedMembers(c, files, AsBackup(c, g));
      }
    }
  }

  lemma WithNewest(c: Calendar, files: seq<File>, f: File, t: Stamp)
    requires ParseName(c, f.name) == Some((t, 1)) && forall b :: b in Backups(c, files) ==> b.at < t
    requires DistinctFiles(files) && f.name !in Names(files)
    ensures Backups(c, files + [f]) == [Backup(t, 1, f)] + Backups(c, files) && DistinctFiles(files + [f])
  {
    ParsedConcat(c, files, [f]);
    assert Parsed(c, [f]) == [Backup(t, 1, f)];
    SortDistinctMembers(c, files);
    SortWithNewest(Parsed(c, files), Backup(t, 1, f));
    StillDistinct(files, f);
  }

  lemma StillDistinct(files: seq<File>, f: File)
    requires DistinctFiles(files) && f.name !in Names(files)
    ensures DistinctFiles(files + [f])
  {
    assert forall i :: 0 <= i < |files| ==> (files + [f])[i] == files[i] && files[i] in files;
  }

  /** When the interval is longer than what has passed of the second, a second
      always is: the copy written is later than all those there by the whole
      interval, it is kept, and what is left is the newest `keep`, every other
      file untouched. */
  lemma NewCopyIsNewestAndKept(c: Calendar, files: seq<File>, now: Instant, every: nat, keep: nat, data: seq<byte>)
    requires Faithful(c) && DistinctFiles(files) && now % 1_000_000_000 < every && keep >= 1
    requires Due(Backups(c, files), now, every)
    ensures var after := After(c, files, now, every, keep, Some(data));
            var made := Backup(Seconds(now), 1, File(Name(c, Seconds(now), 1), data));
            && (forall b :: b in Backups(c, files) ==> b.at < made.at && made.at - b.at >= every / 1_000_000_000)
            && Backups(c, after) == Newest([made] + Backups(c, files), keep)
            && DistinctFiles(after)
            && (forall f :: f in files && !IsBackup(c)(f) ==> f in after)
            && (forall f :: f in after ==> f in files || f == made.file)
  {
    var t := Seconds(now);
    var f := File(Name(c, t, 1), data);
    DueIsLater(c, files, now, every);
    NamesAreRead(c, t, 1);
    NameIsFree(c, files, t);
    WithNewest(c, files, f, t);
    assert NewFile(c, files, now, data) == f;
    PrunedKeepsTheNewest(c, files + [f], keep);
  }

  lemma {:induction false} FreeRankIsFree(c: Calendar, names: set<string>, t: Stamp, n: nat)
    requires n >= 1
    ensures Name(c, t, FreeRank(c, names, t, n)) !in names
    decreases |names - Tried(c, t, n)|
  {
    if Name(c, t, n) in names {
      TriedMore(c, names, t, n);
      FreeRankIsFree(c, names, t, n + 1);
    }
  }

  /** A call that is due leaves no more copies than are kept, even when nothing
      could be copied. */
  lemma NoMoreThanKept(c: Calendar, files: seq<File>, now: Instant, every: nat, keep: nat, saved: Option<seq<byte>>)
    requires DistinctFiles(files) && keep >= 1 && Due(Backups(c, files), now, every)
    ensures |Backups(c, After(c, files, now, every, keep, saved))| <= keep
  {
    if saved.Some? {
      FreeRankIsFree(c, Names(files), Seconds(now), 1);
      StillDistinct(files, NewFile(c, files, now, saved.value));
      PrunedKeepsTheNewest(c, files + [NewFile(c, files, now, saved.value)], keep);
    } else {
      PrunedKeepsTheNewest(c, files, keep);
    }
  }

  // ---- runs -------------------------------------------------------------------------------

  /** A call: what the clock says, and what could be copied. */
  datatype Call = Call(now: Instant, saved: Option<seq<byte>>)

  function Run(c: Calendar, calls: seq<Call>, every: nat, keep: nat): seq<File> {
    if calls == [] then []
    else
      var last := calls[|calls| - 1];
      After(c, Run(c, calls[..|calls| - 1], every, keep), last.now, every, keep, last.saved)
  }

  /** All the copies ever made, the newest first: one at each call that comes
      late enough after the one before. */
  function Made(c: Calendar, calls: seq<Call>, every: nat): seq<Backup> {
    if calls == [] then [] else MadeAfter(c, Made(c, calls[..|calls| - 1], every), calls[|calls| - 1], every)
  }

  /** The copy made by one call: of what was saved, under the date of the call. */
  ghost predicate MadeBy(c: Calendar, call: Call, x: Backup) {
    && call.saved.Some? && x.at == call.now / 1_000_000_000 && x.rank == 1
    && x.file == File("coffre-" + c.render(x.at) + ".json", call.saved.value)
  }

  /** Every copy made so far is as old as the interval. */
  ghost predicate LateEnough(made: seq<Backup>, now: Instant, every: nat) {
    forall b :: b in made ==> every == 0 || now - 1_000_000_000 * b.at >= every
  }

  lemma MadeIsNew(c: Calendar, before: seq<Backup>, call: Call, every: nat, x: Backup)
    requires forall i, j :: 0 <= i < j < |before| ==> before[i].at >= before[j].at
    ensures x in MadeAfter(c, before, call, every) <==> x in before || (MadeBy(c, call, x) && LateEnough(before, call.now, every))
  {
    DueAll(before, call.now, every);
    NameInFull(c, Seconds(call.now), 1);
    if call.saved.Some? {
      var made := Backup(Seconds(call.now), 1, File(Name(c, Seconds(call.now), 1), call.saved.value));
      assert MadeBy(c, call, x) <==> x == made;
      assert x in [made] + before <==> x == made || x in before;
    }
  }

  /** Call `i` made copy `x`. */
  ghost predicate MadeAt(c: Calendar, calls: seq<Call>, every: nat, i: nat, x: Backup) {
    i < |calls| && MadeBy(c, calls[i], x) && LateEnough(Made(c, calls[..i], every), calls[i].now, every)
  }

  lemma MadeAtOneMore(c: Calendar, front: seq<Call>, last: Call, every: nat, x: Backup)
    ensures (exists i: nat :: MadeAt(c, front + [last], every, i, x)) <==>
            (exists i: nat :: MadeAt(c, front, every, i, x)) || (MadeBy(c, last, x) && LateEnough(Made(c, front, every), last.now, every))
  {
    var calls := front + [last];
    assert calls[..|front|] == front && calls[|front|] == last;
    forall i: nat ensures MadeAt(c, calls, every, i, x) <==>
                          if i == |front| then MadeBy(c, last, x) && LateEnough(Made(c, front, every), last.now, every)
                          else MadeAt(c, front, every, i, x)
    {
      if i < |front| {
        assert calls[..i] == front[..i];
      }
    }
    if MadeBy(c, last, x) && LateEnough(Made(c, front, every), last.now, every) {
      assert MadeAt(c, calls, every, |front|, x);
    }
  }

  lemma {:induction false} MadeInOrder(c: Calendar, calls: seq<Call>, every: nat, x: Backup)
    requires forall i, j :: 0 <= i < j < |Made(c, calls, every)| ==> Made(c, calls, every)[i].at >= Made(c, calls, every)[j].at
    ensures x in Made(c, calls, every) <==> exists i: nat :: MadeAt(c, calls, every, i, x)
  {
    if calls != [] {
      var front, last := calls[..|calls| - 1], calls[|calls| - 1];
      var before, after := Made(c, front, every), Made(c, calls, every);
      EndOfSorted(before, after);
      MadeInOrder(c, front, every, x);
      MadeIsNew(c, before, last, every, x);
      MadeAtOneMore(c, front, last, every, x);
      assert calls == front + [last];
    }
  }

  lemma EndOfSorted(before: seq<Backup>, after: seq<Backup>)
    requires forall i, j :: 0 <= i < j < |after| ==> after[i].at >= after[j].at
    requires after == before || (after != [] && after[1..] == before)
    ensures forall i, j :: 0 <= i < j < |before| ==> before[i].at >= before[j].at
  {
    if after != before {
      assert forall i :: 0 <= i < |before| ==> before[i] == after[i + 1];
    }
  }

  /** Each copy is later than the one made before, by the whole interval. */
  ghost predicate Spaced(made: seq<Backup>, every: nat) {
    forall i :: 0 < i < |made| ==> made[i].at < made[i - 1].at && made[i - 1].at - made[i].at >= every / 1_000_000_000
  }

  /** The copies ever made, after one more call. */
  function MadeAfter(c: Calendar, made: seq<Backup>, call: Call, every: nat): seq<Backup> {
    if call.saved.None? || !Due(made, call.now, every) then made
    else [Backup(Seconds(call.now), 1, File(Name(c, Seconds(call.now), 1), call.saved.value))] + made
  }

  lemma NewestIsEnough(made: seq<Backup>, keep: nat, now: Instant, every: nat, latest: Backup)
    requires keep >= 1
    ensures Due(Newest(made, keep), now, every) <==> Due(made, now, every)
    ensures Newest(Newest(made, keep), keep) == Newest(made, keep)
    ensures Newest([latest] + Newest(made, keep), keep) == Newest([latest] + made, keep)
  {}

  lemma OneCallKeeps(c: Calendar, files: seq<File>, made: seq<Backup>, call: Call, every: nat, keep: nat)
    requires Faithful(c) && call.now % 1_000_000_000 < every && keep >= 1 && DistinctFiles(files)
    requires Backups(c, files) == Newest(made, keep)
    ensures var after := After(c, files, call.now, every, keep, call.saved);
            Backups(c, after) == Newest(MadeAfter(c, made, call, every), keep) && DistinctFiles(after)
  {
    var latest := Backup(Seconds(call.now), 1, File(Name(c, Seconds(call.now), 1), call.saved.GetOr([])));
    NewestIsEnough(made, keep, call.now, every, latest);
    if Due(made, call.now, every) {
      if call.saved.Some? {
        NewCopyIsNewestAndKept(c, files, call.now, every, keep, call.saved.value);
      } else {
        PrunedKeepsTheNewest(c, files, keep);
      }
    }
  }

  lemma OneCallSpaces(c: Calendar, made: seq<Backup>, call: Call, every: nat)
    requires call.now % 1_000_000_000 < every && Spaced(made, every)
    ensures Spaced(MadeAfter(c, made, call, every), every)
  {
    var after := MadeAfter(c, made, call, every);
    if after != made {
      assert forall i :: 0 <= i < |made| ==> after[i + 1] == made[i];
      if made != [] {
        assert after[0].at > made[0].at && after[0].at - made[0].at >= every / 1_000_000_000;
      }
    }
  }

  lemma OneCall(c: Calendar, files: seq<File>, made: seq<Backup>, call: Call, every: nat, keep: nat)
    requires Faithful(c) && call.now % 1_000_000_000 < every && keep >= 1 && DistinctFiles(files)
    requires Backups(c, files) == Newest(made, keep) && Spaced(made, every)
    ensures var after := After(c, files, call.now, every, keep, call.saved);
            Backups(c, after) == Newest(MadeAfter(c, made, call, every), keep) && DistinctFiles(after)
    ensures Spaced(MadeAfter(c, made, call, every), every)
  {
    OneCallKeeps(c, files, made, call, every, keep);
    OneCallSpaces(c, made, call, every);
  }

  /** Over any run, the clock going back and forth: the directory holds exactly
      the newest copies of all those made, at least an interval apart. */
  lemma {:induction false} RetentionOverRuns(c: Calendar, calls: seq<Call>, every: nat, keep: nat)
    requires Faithful(c) && keep >= 1 && forall call :: call in calls ==> call.now % 1_000_000_000 < every
    ensures Backups(c, Run(c, calls, every, keep)) == Newest(Made(c, calls, every), keep)
    ensures Spaced(Made(c, calls, every), every) && DistinctFiles(Run(c, calls, every, keep))
  {
    if calls != [] {
      var front, last := calls[..|calls| - 1], calls[|calls| - 1];
      RetentionOverRuns(c, front, every, keep);
      OneCall(c, Run(c, front, every, keep), Made(c, front, every), last, every, keep);
    }
  }

  lemma {:induction false} SpacedIsSorted(made: seq<Backup>, every: nat, i: nat, j: nat)
    requires Spaced(made, every) && i < j < |made|
    ensures made[i].at > made[j].at
  {
    if i + 1 < j {
      SpacedIsSorted(made, every, i, j - 1);
    }
  }

  /** The copies made over a run are those of the calls that had something to
      save and came late enough after all those made before. */
  lemma MadeExactly(c: Calendar, calls: seq<Call>, every: nat, x: Backup)
    requires Faithful(c) && forall call :: call in calls ==> call.now % 1_000_000_000 < every
    ensures x in Made(c, calls, every) <==> exists i: nat :: MadeAt(c, calls, every, i, x)
  {
    var made := Made(c, calls, every);
    RetentionOverRuns(c, calls, every, 1);
    forall i, j | 0 <= i < j < |made| ensures made[i].at >= made[j].at {
      SpacedIsSorted(made, every, i, j);
    }
    MadeInOrder(c, calls, every, x);
  }

  // ---- when the copy made is kept --------------------------------------------------------------

  /** `n` copies of one second, of the ranks 2, 3 and so on. */
  function Ranked(c: Calendar, t: Stamp, n: nat): (r: seq<File>)
    ensures |r| == n
    ensures forall i :: 0 <= i < n ==> r[i].name == Name(c, t, i + 2)
  {
    if n == 0 then [] else Ranked(c, t, n - 1) + [File(Name(c, t, n + 1), [])]
  }

  lemma RankedAreFiles(c: Calendar, t: Stamp, n: nat)
    ensures DistinctFiles(Ranked(c, t, n))
    ensures forall f :: f in Ranked(c, t, n) ==> f.name != Name(c, t, 1)
  {
    var files := Ranked(c, t, n);
    forall i, j | 0 <= i < j < n ensures files[i].name != files[j].name {
      NamesDiffer(c, t, i + 2, j + 2);
    }
    forall i | 0 <= i < n ensures files[i].name != Name(c, t, 1) {
      NamesDiffer(c, t, 1, i + 2);
    }
  }

  lemma {:induction false} RankedAreCopies(c: Calendar, t: Stamp, n: nat)
    requires Faithful(c) && n < 0xFFFF_FFFF
    ensures |Parsed(c, Ranked(c, t, n))| == n
    ensures forall b :: b in Parsed(c, Ranked(c, t, n)) ==> b.at == t && b.rank >= 2
  {
    if n > 0 {
      var f := File(Name(c, t, n + 1), []);
      RankedAreCopies(c, t, n - 1);
      NamesAreRead(c, t, n + 1);
      assert Parsed(c, [f]) == [Backup(t, n + 1, f)];
      ParsedConcat(c, Ranked(c, t, n - 1), [f]);
    }
  }

  lemma {:induction false} InsertBeforeLast(y: Backup, s: seq<Backup>, x: Backup)
    requires NewestFirst()(y, x)
    ensures Insert(y, s + [x], NewestFirst()) == Insert(y, s, NewestFirst()) + [x]
  {
    if s == [] {
      assert s + [x] == [x];
    } else {
      assert (s + [x])[1..] == s[1..] + [x];
      InsertBeforeLast(y, s[1..], x);
    }
  }

  /** A copy older than all the others comes last. */
  lemma {:induction false} SortWithOldest(s: seq<Backup>, x: Backup)
    requires forall b :: b in s ==> NewestFirst()(b, x)
    ensures Sort(s + [x], NewestFirst()) == Sort(s, NewestFirst()) + [x]
  {
    if s == [] {
      assert s + [x] == [x];
    } else {
      assert (s + [x])[1..] == s[1..] + [x];
      SortWithOldest(s[1..], x);
      assert s[0] in s;
      InsertBeforeLast(s[0], Sort(s[1..], NewestFirst()), x);
    }
  }

  lemma LastGoes(c: Calendar, files: seq<File>, f: File, kept: seq<Backup>, b: Backup)
    requires Backups(c, files + [f]) == kept + [b] && b.file == f && forall g :: g in files ==> g.name != f.name
    ensures Pruned(c, files + [f], |kept|) == files
  {
    assert (kept + [b])[|kept|..] == [b];
    var names := NamesOf([b]);
    assert names == {f.name};
    FilterConcat(files, [f], NotNamed(names));
    FilterAll(files, NotNamed(names));
  }

  /** The ranks of a second are used again: when the second has as many copies
      as are kept, but no longer the first, and the interval is over, the next
      copy takes the first rank, is the oldest, and is deleted at once. */
  lemma ReusedRankIsLost(c: Calendar, now: Instant, every: nat, keep: nat, data: seq<byte>)
    requires Faithful(c) && 1 <= keep < 0xFFFF_FFFF && now % 1_000_000_000 >= every
    ensures var files := Ranked(c, Seconds(now), keep);
            && Due(Backups(c, files), now, every)
            && After(c, files, now, every, keep, Some(data)) == files
            && NewFile(c, files, now, data) !in files
  {
    var t := Seconds(now);
    var files, f := Ranked(c, t, keep), File(Name(c, t, 1), data);
    RankedAreFiles(c, t, keep);
    RankedAreCopies(c, t, keep);
    SortDistinctMembers(c, files);
    assert |Backups(c, files)| == keep by { SameMembers(Backups(c, files), Parsed(c, files)); }
    assert Backups(c, files)[0] in Backups(c, files);
    NamesAreRead(c, t, 1);
    assert Parsed(c, [f]) == [Backup(t, 1, f)];
    ParsedConcat(c, files, [f]);
    SortWithOldest(Parsed(c, files), Backup(t, 1, f));
    LastGoes(c, files, f, Backups(c, files), Backup(t, 1, f));
    assert NewFile(c, files, now, data) == f;
  }

  /** Whatever is in the directory, the copy made at `now` is there after the call. */
  ghost predicate KeptAt(c: Calendar, now: Instant, every: nat) {
    forall files, keep: nat, data ::
      keep >= 1 && DistinctFiles(files) && Due(Backups(c, files), now, every) ==>
        NewFile(c, files, now, data) in After(c, files, now, every, keep, Some(data))
  }

  lemma FirstIsThere(c: Calendar, files: seq<File>, made: Backup, others: seq<Backup>, keep: nat)
    requires keep >= 1 && Backups(c, files) == Newest([made] + others, keep)
    ensures made.file in files
  {
    assert Backups(c, files)[0] == made;
    SortDistinctMembers(c, files);
    ParsedMembers(c, files, made);
  }

  lemma KeptInFact(c: Calendar, files: seq<File>, now: Instant, every: nat, keep: nat, data: seq<byte>)
    requires Faithful(c) && DistinctFiles(files) && now % 1_000_000_000 < every && keep >= 1
    requires Due(Backups(c, files), now, every)
    ensures NewFile(c, files, now, data) in After(c, files, now, every, keep, Some(data))
  {
    var made := Backup(Seconds(now), 1, File(Name(c, Seconds(now), 1), data));
    NewCopyIsNewestAndKept(c, files, now, every, keep, data);
    DueIsLater(c, files, now, every);
    NameIsFree(c, files, Seconds(now));
    FirstIsThere(c, After(c, files, now, every, keep, Some(data)), made, Backups(c, files), keep);
  }

  /** At a given time, the copy made is always kept exactly when the interval
      is longer than what has passed of the second. */
  lemma KeptExactly(c: Calendar, now: Instant, every: nat)
    requires Faithful(c)
    ensures KeptAt(c, now, every) <==> now % 1_000_000_000 < every
  {
    if now % 1_000_000_000 < every {
      forall files, keep: nat, data | keep >= 1 && DistinctFiles(files) && Due(Backups(c, files), now, every)
        ensures NewFile(c, files, now, data) in After(c, files, now, every, keep, Some(data))
      {
        KeptInFact(c, files, now, every, keep, data);
      }
    } else {
      var files := Ranked(c, Seconds(now), 1);
      ReusedRankIsLost(c, now, every, 1, []);
      RankedAreFiles(c, Seconds(now), 1);
      assert NewFile(c, files, now, []) !in After(c, files, now, every, 1, Some([]));
    }
  }

  /** At any time. */
  ghost predicate AlwaysKept(c: Calendar, every: nat) { forall now: Instant :: KeptAt(c, now, every) }

  lemma WithinTheSecond(n: int)
    ensures 0 <= n % 1_000_000_000 < 1_000_000_000
    ensures 0 <= n < 1_000_000_000 ==> n % 1_000_000_000 == n
  {}

  lemma KeptFromASecond(c: Calendar, now: Instant, every: nat)
    requires Faithful(c) && every >= 1_000_000_000
    ensures KeptAt(c, now, every)
  {
    WithinTheSecond(now);
    KeptExactly(c, now, every);
  }

  lemma NotAlwaysBelow(c: Calendar, every: nat)
    requires Faithful(c) && every < 1_000_000_000
    ensures !KeptAt(c, every, every)
  {
    WithinTheSecond(every);
    KeptExactly(c, every, every);
  }

  /** Exactly when the interval is a second or more. */
  lemma AlwaysKeptExactly(c: Calendar, every: nat)
    requires Faithful(c)
    ensures AlwaysKept(c, every) <==> every >= 1_000_000_000
  {
    if every >= 1_000_000_000 {
      forall now: Instant ensures KeptAt(c, now, every) {
        KeptFromASecond(c, now, every);
      }
    } else {
      NotAlwaysBelow(c, every);
    }
  }
}
