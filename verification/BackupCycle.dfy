/** Dumping a database, restoring the file elsewhere, and dumping again. */
module BackupCycle {
  import opened Wrappers
  import opened Seqs
  import opened Backups

  /** Rows as JSON texts, in no particular order. */
  datatype Db = Db(schema: int, tables: map<string, seq<Line>>) {
    /** Dumped, it gives the counts and digests expected, and no others. */
    ghost predicate Passes(lib: Lib, order: Order, expected: Trailer) {
      AllKnown() && SameEntries(ChecksOf(lib, order, this), expected)
    }

    /** No table is missing from the backups. */
    ghost predicate AllKnown() {
      forall t :: t in tables ==> t in TABLES || t in NOT_DATA
    }
  }

  ghost predicate SameEntries(checks: Trailer, expected: Trailer) {
    (forall t :: t in expected ==> t in checks && checks[t] == expected[t]) && |checks| == |expected|
  }

  lemma SameEntriesIsEqual(checks: Trailer, expected: Trailer)
    ensures SameEntries(checks, expected) <==> checks == expected
  {
    if SameEntries(checks, expected) {
      assert expected.Keys <= checks.Keys && |expected.Keys| == |expected| && |checks.Keys| == |checks|;
      SubsetOfSameSize(expected.Keys, checks.Keys);
    }
  }

  lemma SubsetOfSameSize<T>(a: set<T>, b: set<T>)
    requires a <= b && |a| == |b|
    ensures a == b
  {
    assert |b| == |a| + |b - a| by { assert b == a + (b - a); }
  }

  /** `ORDER BY` the primary key, table by table. */
  type Order = (string, seq<Line>) -> seq<Line>

  /** The order is a permutation and depends only on which rows there are. */
  ghost predicate Canonical(order: Order) {
    && (forall t, rows :: multiset(order(t, rows)) == multiset(rows))
    && (forall t, a, b :: multiset(a) == multiset(b) ==> order(t, a) == order(t, b))
  }

  ghost predicate AllJson(lib: Lib, db: Db) {
    forall t, row :: t in db.tables && row in db.tables[t] ==> lib.isJson(row)
  }

  // ---- rows grouped by table ------------------------------------------------------------

  type RowsOf = string -> seq<string>

  /** The rows of each table, table after table. */
  function Grouped(tables: seq<string>, rows: RowsOf): seq<Pair> {
    if tables == [] then []
    else Grouped(tables[..|tables| - 1], rows) + Block(tables[|tables| - 1], rows(tables[|tables| - 1]))
  }

  function Block(t: string, rows: seq<string>): (b: seq<Pair>)
    ensures |b| == |rows|
    ensures forall i :: 0 <= i < |rows| ==> b[i] == (t, rows[i])
  {
    seq(|rows|, i requires 0 <= i < |rows| => (t, rows[i]))
  }

  ghost predicate DistinctNames(tables: seq<string>) {
    forall i, j :: 0 <= i < j < |tables| ==> tables[i] != tables[j]
  }

  lemma {:induction false} IndexOfDistinct(tables: seq<string>, k: nat)
    requires DistinctNames(tables) && k < |tables|
    ensures IndexOf(tables, tables[k]) == Some(k)
  {
    if k > 0 {
      assert forall i, j :: 0 <= i < j < |tables[1..]| ==> tables[1..][i] == tables[i + 1] && tables[1..][j] == tables[j + 1];
      IndexOfDistinct(tables[1..], k - 1);
      assert tables[0] != tables[k];
    }
  }

  lemma BlockRows(t: string, rows: seq<string>, u: string)
    ensures RowsIn(Block(t, rows), u) == if u == t then rows else []
  {
    if u == t {
      FilterAll(Block(t, rows), TagIs(u));
    } else {
      FilterNone(Block(t, rows), TagIs(u));
    }
  }

  lemma RowsInConcat(a: seq<Pair>, b: seq<Pair>, t: string)
    ensures RowsIn(a + b, t) == RowsIn(a, t) + RowsIn(b, t)
  {
    FilterConcat(a, b, TagIs(t));
  }

  lemma DistinctFront(tables: seq<string>)
    requires DistinctNames(tables) && tables != []
    ensures DistinctNames(tables[..|tables| - 1]) && tables[|tables| - 1] !in tables[..|tables| - 1]
  {
    var front := tables[..|tables| - 1];
    assert forall i :: 0 <= i < |front| ==> front[i] == tables[i] && tables[i] != tables[|tables| - 1];
  }

  lemma OneGroupMore(tables: seq<string>, rows: RowsOf, t: string)
    requires tables != []
    ensures var front, last := tables[..|tables| - 1], tables[|tables| - 1];
            RowsIn(Grouped(tables, rows), t)
            == if t == last then RowsIn(Grouped(front, rows), t) + rows(last) else RowsIn(Grouped(front, rows), t)
  {
    var front, last := tables[..|tables| - 1], tables[|tables| - 1];
    RowsInConcat(Grouped(front, rows), Block(last, rows(last)), t);
    BlockRows(last, rows(last), t);
    assert RowsIn(Grouped(front, rows), t) + [] == RowsIn(Grouped(front, rows), t);
  }

  lemma LastOrBefore(tables: seq<string>, t: string)
    requires tables != []
    ensures t in tables <==> t in tables[..|tables| - 1] || t == tables[|tables| - 1]
  {
    assert tables == tables[..|tables| - 1] + [tables[|tables| - 1]];
  }

  lemma {:induction false} GroupedRows(tables: seq<string>, rows: RowsOf, t: string)
    requires DistinctNames(tables)
    ensures RowsIn(Grouped(tables, rows), t) == if t in tables then rows(t) else []
  {
    if tables != [] {
      var front, last := tables[..|tables| - 1], tables[|tables| - 1];
      DistinctFront(tables);
      GroupedRows(front, rows, t);
      OneGroupMore(tables, rows, t);
      LastOrBefore(tables, t);
      assert [] + rows(last) == rows(last);
    }
  }

  lemma {:induction false} GroupedInOrder(tables: seq<string>, rows: RowsOf, n: nat)
    requires DistinctNames(tables) && n <= |tables|
    ensures InHeaderOrder(tables, Grouped(tables[..n], rows))
    ensures forall p :: p in Grouped(tables[..n], rows) ==> IndexOf(tables, p.0).Some? && IndexOf(tables, p.0).value < n
  {
    if n > 0 {
      var front, last := tables[..n - 1], tables[n - 1];
      GroupedInOrder(tables, rows, n - 1);
      assert tables[..n][..n - 1] == front;
      IndexOfDistinct(tables, n - 1);
      var g, b := Grouped(front, rows), Block(last, rows(last));
      var all: seq<Pair> := g + b;
      forall i, j | 0 <= i < j < |all|
        ensures IndexOf(tables, all[i].0).value <= IndexOf(tables, all[j].0).value
      {
        if i < |g| && j >= |g| {
          assert g[i] in g;
        }
      }
    }
  }

  /** The header's order says it all: the file is the rows of each table, in
      one piece, table after table. */
  lemma {:induction false} OrderMeansGrouped(tables: seq<string>, pairs: seq<Pair>)
    requires DistinctNames(tables) && InHeaderOrder(tables, pairs)
    ensures pairs == Grouped(tables, (t: string) => RowsIn(pairs, t))
  {
    if pairs == [] {
      NoRows(tables, (t: string) => RowsIn(pairs, t));
    } else {
      var front, p := pairs[..|pairs| - 1], pairs[|pairs| - 1];
      assert pairs == front + [p];
      OrderMeansGrouped(tables, front);
      var f, f' := (t: string) => RowsIn(front, t), (t: string) => RowsIn(pairs, t);
      var k := IndexOf(tables, p.0).value;
      IndexOfIsThere(tables, p.0);
      forall j | 0 <= j < |tables|
        ensures f'(tables[j]) == if j == k then f(tables[j]) + [p.1] else f(tables[j])
        ensures j > k ==> f(tables[j]) == []
      {
        RowsOfOneMore(front, p, tables[j]);
        IndexOfDistinct(tables, j);
        if j > k { NoRowsYet(tables, front, p, j); }
      }
      OneRowLonger(tables, f, f', k, p.1);
    }
  }

  /** No row of a table comes before one of an earlier table. */
  lemma NoRowsYet(tables: seq<string>, front: seq<Pair>, p: Pair, j: nat)
    requires DistinctNames(tables) && InHeaderOrder(tables, front + [p]) && j < |tables|
    requires IndexOf(tables, p.0).Some? && IndexOf(tables, p.0).value < j
    ensures RowsIn(front, tables[j]) == []
  {
    var pairs := front + [p];
    IndexOfDistinct(tables, j);
    forall i | 0 <= i < |front| ensures front[i].0 != tables[j] {
      assert pairs[i] == front[i] && pairs[|front|] == p;
      assert IndexOf(tables, pairs[i].0).value <= IndexOf(tables, pairs[|front|].0).value;
    }
    FilterNone(front, TagIs(tables[j]));
  }

  lemma {:induction false} NoRows(tables: seq<string>, rows: RowsOf)
    requires forall t :: rows(t) == []
    ensures Grouped(tables, rows) == []
  {
    if tables != [] {
      NoRows(tables[..|tables| - 1], rows);
    }
  }

  lemma {:induction false} SameGroups(tables: seq<string>, f: RowsOf, g: RowsOf)
    requires forall t :: t in tables ==> f(t) == g(t)
    ensures Grouped(tables, f) == Grouped(tables, g)
  {
    if tables != [] {
      SameGroups(tables[..|tables| - 1], f, g);
    }
  }

  lemma EmptyBlock(a: seq<Pair>, t: string)
    ensures a + Block(t, []) == a
  {}

  lemma BlockLonger(a: seq<Pair>, t: string, rows: seq<string>, row: string)
    ensures a + Block(t, rows + [row]) == a + Block(t, rows) + [(t, row)]
  {
    assert Block(t, rows + [row]) == Block(t, rows) + [(t, row)];
  }

  lemma {:induction false} OneRowLonger(tables: seq<string>, f: RowsOf, f': RowsOf, k: nat, row: string)
    requires k < |tables|
    requires forall j :: 0 <= j < |tables| ==> f'(tables[j]) == if j == k then f(tables[j]) + [row] else f(tables[j])
    requires forall j :: k < j < |tables| ==> f(tables[j]) == []
    ensures Grouped(tables, f') == Grouped(tables, f) + [(tables[k], row)]
  {
    var front, last := tables[..|tables| - 1], tables[|tables| - 1];
    if k == |tables| - 1 {
      forall t | t in front ensures f(t) == f'(t) {
        var j :| 0 <= j < |front| && front[j] == t;
        assert tables[j] == t;
      }
      SameGroups(front, f, f');
      BlockLonger(Grouped(front, f), last, f(last), row);
    } else {
      OneRowLonger(front, f, f', k, row);
      assert f(last) == [] && f'(last) == [];
      EmptyBlock(Grouped(front, f), last);
      EmptyBlock(Grouped(front, f'), last);
    }
  }

  // ---- the dump --------------------------------------------------------------------------

  function Known(db: Db): string -> bool { (t: string) => t in db.tables }

  /** The tables dumped: those of the list that the database has. */
  function Dumped(db: Db): seq<string> { Filter(TABLES, Known(db)) }

  /** The tables known, in the order of restoration. */
  lemma TablesInFull()
    ensures TABLES == ["users", "vaults", "vault_members", "items", "item_versions", "attachments", "attachment_chunks",
                       "invitations", "sessions", "user_totp", "user_recovery_codes", "passkeys", "webauthn_challenges",
                       "totp_challenges", "user_settings", "sends", "send_chunks", "send_downloads",
                       "emergency_grants", "emergency_vault_keys", "registration_invites", "audit_log", "backup_runs"]
  {}

  /** A database is dumped whole: every table is one of the list, or one of the
      two that hold no data. */
  lemma KnownInFull(db: Db)
    ensures db.AllKnown() <==>
            forall t :: t in db.tables ==> t in TABLES || t == "_sqlx_migrations" || t == "guivault_restore_check"
  {}

  function Ordered(order: Order, db: Db): RowsOf {
    (t: string) => if t in db.tables then order(t, db.tables[t]) else []
  }

  function ChecksOf(lib: Lib, order: Order, db: Db): Trailer {
    ChecksSoFar(lib, Ordered(order, db), Dumped(db))
  }

  function Written(pairs: seq<Pair>): (lines: seq<string>)
    ensures |lines| == |pairs|
    ensures forall i :: 0 <= i < |pairs| ==> lines[i] == Tagged(pairs[i].0, pairs[i].1)
  {
    seq(|pairs|, i requires 0 <= i < |pairs| => Tagged(pairs[i].0, pairs[i].1))
  }

  /** A file written by the dump of `db`. */
  ghost predicate IsDump(lib: Lib, order: Order, db: Db, header: Header, lines: seq<Line>) {
    && header.format == FORMAT && header.schema == db.schema && header.tables == Dumped(db)
    && lines == [Tagged(MAGIC, lib.printHeader(header))]
                + Written(Grouped(Dumped(db), Ordered(order, db)))
                + [Tagged(END, lib.printTrailer(ChecksOf(lib, order, db)))]
  }

  /** The lines of one table, their count, and what is fed to the digest. */
  method DumpTable(t: string, rows: seq<Line>) returns (out: seq<Line>, count: nat, text: string)
    requires Plain(t)
    ensures out == Written(Block(t, rows)) && count == |rows| && text == Digested(rows)
  {
    out, count, text := [], 0, "";
    for j := 0 to |rows|
      invariant |out| == count == j && forall i :: 0 <= i < j ==> out[i] == Tagged(t, rows[i])
      invariant text == Digested(rows[..j])
    {
      out := out + [Tagged(t, rows[j])];
      assert rows[..j + 1] == rows[..j] + [rows[j]];
      DigestedOfOneMore(rows[..j], rows[j]);
      text := text + rows[j] + "\n";
      count := count + 1;
    }
    assert rows[..|rows|] == rows;
  }

  lemma OneTableMore(tables: seq<string>, rows: RowsOf, k: nat)
    requires k < |tables|
    ensures Written(Grouped(tables[..k + 1], rows))
            == Written(Grouped(tables[..k], rows)) + Written(Block(tables[k], rows(tables[k])))
  {
    assert tables[..k + 1][..k] == tables[..k];
  }

  function ChecksSoFar(lib: Lib, rows: RowsOf, tables: seq<string>): Trailer {
    map t | t in tables :: Check(lib, rows(t))
  }

  /** Every table in its order: all the lines and all the checks. */
  method DumpTables(lib: Lib, order: Order, db: Db, tables: seq<string>) returns (out: seq<Line>, checks: Trailer)
    requires forall t :: t in tables ==> t in db.tables && Plain(t)
    ensures out == Written(Grouped(tables, Ordered(order, db)))
    ensures checks == ChecksSoFar(lib, Ordered(order, db), tables)
  {
    out, checks := [], map[];
    ghost var rowsOf := Ordered(order, db);
    for k := 0 to |tables|
      invariant out == Written(Grouped(tables[..k], rowsOf))
      invariant checks == ChecksSoFar(lib, rowsOf, tables[..k])
    {
      var t := tables[k];
      assert t in tables;
      var rows := order(t, db.tables[t]);
      var written, count, text := DumpTable(t, rows);
      OneTableMore(tables, rowsOf, k);
      out := out + written;
      OneCheckMore(lib, rowsOf, tables, k);
      checks := checks[t := TableCheck(count, lib.sha256(text))];
    }
    assert tables[..|tables|] == tables;
  }

  lemma OneCheckMore(lib: Lib, rows: RowsOf, tables: seq<string>, k: nat)
    requires k < |tables|
    ensures ChecksSoFar(lib, rows, tables[..k + 1])
            == ChecksSoFar(lib, rows, tables[..k])[tables[k] := Check(lib, rows(tables[k]))]
  {
    assert tables[..k + 1] == tables[..k] + [tables[k]];
  }

  /** Writes the header, each table in its order, then the end; refuses a table
      it does not know. */
  method Dump(lib: Lib, order: Order, db: Db, version: string, now: int)
    returns (r: Result<(seq<Line>, Header, Trailer), Error>)
    ensures r.Ok? <==> db.AllKnown()
    ensures r.Ok? ==> IsDump(lib, order, db, r.value.1, r.value.0) && r.value.2 == ChecksOf(lib, order, db)
    ensures r.Ok? ==> r.value.1 == Header(1, version, db.schema, now, Dumped(db))
    ensures r.Err? ==> r.error.UnknownTable?
  {
    if exists t :: t in db.tables.Keys && t !in TABLES && t !in NOT_DATA {
      return Err(UnknownTable(0));
    }
    var header := Header(FORMAT, version, db.schema, now, Dumped(db));
    var first: Line := Tagged(MAGIC, lib.printHeader(header));
    forall t | t in Dumped(db) ensures Plain(t) { NamesArePlain(t); }
    var lines, checks := DumpTables(lib, order, db, Dumped(db));
    var last: Line := Tagged(END, lib.printTrailer(checks));
    return Ok(([first] + lines + [last], header, checks));
  }

  predicate Plain(t: string) { '\t' !in t && '\n' !in t && t != END }

  lemma NamesArePlain(t: string)
    requires t in TABLES
    ensures Plain(t)
  {
    if t in VAULT_TABLES {
      VaultNames(t);
    } else if t in ACCOUNT_TABLES {
      AccountNames(t);
    } else if t in SEND_TABLES {
      SendNames(t);
    } else {
      assert t in OTHER_TABLES;
      OtherNames(t);
    }
  }

  lemma VaultNames(t: string)
    requires t in VAULT_TABLES
    ensures Plain(t)
  {}

  lemma AccountNames(t: string)
    requires t in ACCOUNT_TABLES
    ensures Plain(t)
  {}

  lemma SendNames(t: string)
    requires t in SEND_TABLES
    ensures Plain(t)
  {}

  lemma OtherNames(t: string)
    requires t in OTHER_TABLES
    ensures Plain(t)
  {}

  // ---- what a dump is -------------------------------------------------------------------

  lemma VaultNamesDiffer()
    ensures DistinctNames(VAULT_TABLES)
  {}

  lemma AccountNamesDiffer()
    ensures DistinctNames(ACCOUNT_TABLES)
  {}

  lemma SendNamesDiffer()
    ensures DistinctNames(SEND_TABLES)
  {}

  lemma OtherNamesDiffer()
    ensures DistinctNames(OTHER_TABLES)
  {}

  ghost predicate Apart(a: seq<string>, b: seq<string>) {
    forall t :: t in a ==> t !in b
  }

  lemma VaultListApart()
    ensures Apart(VAULT_TABLES, ACCOUNT_TABLES) && Apart(VAULT_TABLES, SEND_TABLES) && Apart(VAULT_TABLES, OTHER_TABLES)
  {}

  lemma ListsApart()
    ensures Apart(ACCOUNT_TABLES, SEND_TABLES) && Apart(ACCOUNT_TABLES, OTHER_TABLES) && Apart(SEND_TABLES, OTHER_TABLES)
  {}

  lemma DistinctTogether(a: seq<string>, b: seq<string>)
    requires DistinctNames(a) && DistinctNames(b) && Apart(a, b)
    ensures DistinctNames(a + b)
  {
    var c := a + b;
    forall i, j | 0 <= i < j < |c| ensures c[i] != c[j] {
      if i < |a| && j >= |a| {
        assert a[i] in a && b[j - |a|] in b;
      }
    }
  }

  lemma TablesAreDistinct()
    ensures DistinctNames(TABLES)
  {
    VaultNamesDiffer();
    AccountNamesDiffer();
    SendNamesDiffer();
    OtherNamesDiffer();
    VaultListApart();
    ListsApart();
    DistinctTogether(VAULT_TABLES, ACCOUNT_TABLES);
    DistinctTogether(VAULT_TABLES + ACCOUNT_TABLES, SEND_TABLES);
    DistinctTogether(VAULT_TABLES + ACCOUNT_TABLES + SEND_TABLES, OTHER_TABLES);
  }

  lemma DumpedAreDistinct(db: Db)
    ensures DistinctNames(Dumped(db))
    ensures forall t :: t in Dumped(db) ==> t in db.tables && Plain(t)
  {
    TablesAreDistinct();
    FilterPairwise(TABLES, Known(db), (x: string, y: string) => x != y);
    forall t | t in Dumped(db) ensures Plain(t) { NamesArePlain(t); }
  }

  lemma {:induction false} DistinctCount(tables: seq<string>, trailer: Trailer)
    requires DistinctNames(tables) && forall t :: t in trailer <==> t in tables
    ensures |trailer| == |tables|
  {
    if tables == [] {
      assert trailer == map[];
    } else {
      var n := |tables| - 1;
      var front, last := tables[..n], tables[n];
      DistinctFront(tables);
      assert tables == front + [last];
      DistinctCount(front, trailer - {last});
      assert trailer.Keys == (trailer - {last}).Keys + {last};
      assert |trailer.Keys| == |trailer| && |(trailer - {last}).Keys| == |trailer - {last}|;
    }
  }

  lemma SplitWritten(lib: Lib, pairs: seq<Pair>, lines: seq<Line>)
    requires lines == Written(pairs)
    requires forall p :: p in pairs ==> Plain(p.0) && lib.isJson(p.1)
    ensures Rows(lib, lines) && Pairs(lib, lines) == pairs
  {
    forall i | 0 <= i < |lines| ensures SplitOnce(lines[i]) == Some(pairs[i]) && IsRow(lib, lines[i]) {
      assert pairs[i] in pairs;
      SplitTagged(pairs[i].0, pairs[i].1);
    }
  }

  lemma {:induction false} GroupedMembers(tables: seq<string>, rows: RowsOf, p: Pair)
    requires p in Grouped(tables, rows)
    ensures p.0 in tables && p.1 in rows(p.0)
  {
    var front, last := tables[..|tables| - 1], tables[|tables| - 1];
    if p in Grouped(front, rows) {
      GroupedMembers(front, rows, p);
    } else {
      var i :| 0 <= i < |Block(last, rows(last))| && Block(last, rows(last))[i] == p;
      assert p == (last, rows(last)[i]);
    }
  }

  lemma OrderedRow(order: Order, db: Db, t: string, row: string)
    requires Canonical(order) && row in Ordered(order, db)(t)
    ensures t in db.tables && row in db.tables[t]
  {
    SameMembers(order(t, db.tables[t]), db.tables[t]);
  }

  lemma RowsOfDump(lib: Lib, order: Order, db: Db, lines: seq<Line>)
    requires Canonical(order) && AllJson(lib, db)
    requires lines == Written(Grouped(Dumped(db), Ordered(order, db)))
    ensures Rows(lib, lines) && Pairs(lib, lines) == Grouped(Dumped(db), Ordered(order, db))
  {
    var tables, rows := Dumped(db), Ordered(order, db);
    DumpedAreDistinct(db);
    forall p | p in Grouped(tables, rows) ensures Plain(p.0) && lib.isJson(p.1) {
      GroupedMembers(tables, rows, p);
      OrderedRow(order, db, p.0, p.1);
    }
    SplitWritten(lib, Grouped(tables, rows), lines);
  }

  lemma EndsAreTagged(lib: Lib, header: Header, trailer: Trailer)
    requires RoundTrips(lib)
    ensures SplitOnce(Tagged(MAGIC, lib.printHeader(header))) == Some((MAGIC, lib.printHeader(header)))
    ensures SplitOnce(Tagged(END, lib.printTrailer(trailer))) == Some((END, lib.printTrailer(trailer)))
  {
    SplitTagged(MAGIC, lib.printHeader(header));
    SplitTagged(END, lib.printTrailer(trailer));
  }

  /** The parts of a dump, as a reader finds them. */
  lemma PartsOfDump(lib: Lib, order: Order, db: Db, header: Header, lines: seq<Line>)
    requires RoundTrips(lib) && Canonical(order) && AllJson(lib, db) && IsDump(lib, order, db, header, lines)
    ensures |lines| >= 2 && HeaderOf(lib, lines) == Some(header) && TrailerOf(lib, lines) == Some(ChecksOf(lib, order, db))
    ensures Rows(lib, Middle(lines)) && Pairs(lib, Middle(lines)) == Grouped(Dumped(db), Ordered(order, db))
  {
    EndsAreTagged(lib, header, ChecksOf(lib, order, db));
    var middle := Written(Grouped(Dumped(db), Ordered(order, db)));
    assert Middle(lines) == middle;
    RowsOfDump(lib, order, db, Middle(lines));
  }

  lemma GroupedIsDescribed(lib: Lib, tables: seq<string>, rows: RowsOf)
    requires DistinctNames(tables)
    ensures Describes(lib, tables, ChecksSoFar(lib, rows, tables), Grouped(tables, rows))
  {
    var trailer := ChecksSoFar(lib, rows, tables);
    DistinctCount(tables, trailer);
    forall i | 0 <= i < |tables|
      ensures tables[i] in trailer && trailer[tables[i]] == Check(lib, RowsIn(Grouped(tables, rows), tables[i]))
    {
      GroupedRows(tables, rows, tables[i]);
    }
  }

  /** Every dump is accepted, and is read back as the rows it was written from. */
  lemma DumpIsAccepted(lib: Lib, order: Order, db: Db, header: Header, lines: seq<Line>)
    requires RoundTrips(lib) && Canonical(order) && AllJson(lib, db) && IsDump(lib, order, db, header, lines)
    ensures WellFormed(lib, lines)
    ensures forall t :: t in Dumped(db) ==> RowsIn(Pairs(lib, Middle(lines)), t) == order(t, db.tables[t])
  {
    PartsOfDump(lib, order, db, header, lines);
    DumpedAreDistinct(db);
    var tables, rows := Dumped(db), Ordered(order, db);
    GroupedInOrder(tables, rows, |tables|);
    assert tables[..|tables|] == tables;
    GroupedIsDescribed(lib, tables, rows);
    forall t | t in tables ensures RowsIn(Grouped(tables, rows), t) == order(t, db.tables[t]) {
      GroupedRows(tables, rows, t);
    }
  }

  // ---- a trailer that is not the file's own ------------------------------------------------

  lemma RowsHaveNoFeed(lib: Lib, lines: seq<Line>, t: string)
    requires Rows(lib, lines)
    ensures forall i :: 0 <= i < |RowsIn(Pairs(lib, lines), t)| ==> '\n' !in RowsIn(Pairs(lib, lines), t)[i]
  {
    var pairs := Pairs(lib, lines);
    var f := Filter(pairs, TagIs(t));
    forall i | 0 <= i < |f| ensures '\n' !in f[i].1 {
      assert f[i] in pairs;
      var k :| 0 <= k < |pairs| && pairs[k] == f[i];
      SplitIsTagged(lines[k]);
    }
  }

  lemma SameCheckSameRows(lib: Lib, a: seq<string>, b: seq<string>)
    requires CollisionFree(lib) && Check(lib, a) == Check(lib, b)
    requires forall i :: 0 <= i < |a| ==> '\n' !in a[i]
    requires forall i :: 0 <= i < |b| ==> '\n' !in b[i]
    ensures a == b
  {
    DigestedInjective(a, b);
  }

  lemma {:induction false} NoRowOf(tables: seq<string>, pairs: seq<Pair>, t: string)
    requires InHeaderOrder(tables, pairs) && t !in tables
    ensures RowsIn(pairs, t) == []
  {
    forall p | p in pairs ensures p.0 != t {
      var i :| 0 <= i < |pairs| && pairs[i] == p;
      IndexOfIsThere(tables, pairs[i].0);
    }
    FilterNone(pairs, TagIs(t));
  }

  /** A file that is accepted and ends like a dump has the dump's rows, but for
      the tables its header does not name: those rows are gone unnoticed. */
  lemma TrailerTellsRows(lib: Lib, order: Order, db: Db, header: Header, dumped: seq<Line>, lines: seq<Line>, t: string)
    requires RoundTrips(lib) && CollisionFree(lib) && Canonical(order) && AllJson(lib, db)
    requires IsDump(lib, order, db, header, dumped)
    requires WellFormed(lib, lines) && lines[|lines| - 1] == dumped[|dumped| - 1]
    requires t in Dumped(db)
    ensures RowsIn(Pairs(lib, Middle(lines)), t) == order(t, db.tables[t])
            <==> t in HeaderOf(lib, lines).value.tables || db.tables[t] == []
  {
    PartsOfDump(lib, order, db, header, dumped);
    var pairs := Pairs(lib, Middle(lines));
    assert TrailerOf(lib, lines) == TrailerOf(lib, dumped);
    SameMembers(order(t, db.tables[t]), db.tables[t]);
    RowsHaveNoFeed(lib, Middle(lines), t);
    DescribedTells(lib, HeaderOf(lib, lines).value.tables, TrailerOf(lib, lines).value, pairs, order(t, db.tables[t]), t);
  }

  lemma DescribedTells(lib: Lib, tables: seq<string>, trailer: Trailer, pairs: seq<Pair>, rows: seq<Line>, t: string)
    requires CollisionFree(lib) && InHeaderOrder(tables, pairs) && Describes(lib, tables, trailer, pairs)
    requires forall i :: 0 <= i < |RowsIn(pairs, t)| ==> '\n' !in RowsIn(pairs, t)[i]
    requires t in trailer && trailer[t] == Check(lib, rows)
    ensures RowsIn(pairs, t) == rows <==> t in tables || rows == []
  {
    if t in tables {
      var i :| 0 <= i < |tables| && tables[i] == t;
      SameCheckSameRows(lib, RowsIn(pairs, t), rows);
    } else {
      NoRowOf(tables, pairs, t);
    }
  }

  lemma {:induction false} AllNamed(tables: seq<string>, trailer: Trailer)
    requires |trailer| == |tables| && forall i :: 0 <= i < |tables| ==> tables[i] in trailer
    ensures DistinctNames(tables) <==> forall t :: t in trailer ==> t in tables
  {
    var names := set t | t in tables;
    assert names <= trailer.Keys;
    NamesCount(tables);
    assert |trailer.Keys| == |trailer|;
    SubsetBySize(names, trailer.Keys);
    assert (forall t :: t in trailer ==> t in tables) <==> trailer.Keys <= names;
  }

  lemma SubsetBySize(a: set<string>, b: set<string>)
    requires a <= b
    ensures |a| == |b| <==> b <= a
  {
    assert b == a + (b - a);
    assert |b| == |a| + |b - a|;
  }

  lemma {:induction false} NamesCount(tables: seq<string>)
    ensures |set t | t in tables| <= |tables|
    ensures DistinctNames(tables) <==> |set t | t in tables| == |tables|
  {
    if tables != [] {
      var n := |tables| - 1;
      var front, last := tables[..n], tables[n];
      var names, names' := set t | t in front, set t | t in tables;
      NamesCount(front);
      assert tables == front + [last];
      assert names' == names + {last};
      if last in front {
        assert names' == names;
        var i :| 0 <= i < n && front[i] == last;
        assert tables[i] == tables[n];
      } else {
        assert |names'| == |names| + 1;
        assert DistinctNames(tables) ==> DistinctNames(front) by {
          if DistinctNames(tables) { DistinctFront(tables); }
        }
        assert DistinctNames(front) ==> DistinctNames(tables) by {
          if DistinctNames(front) { DistinctAdd(front, last); }
        }
      }
    }
  }

  lemma DistinctAdd(front: seq<string>, last: string)
    requires DistinctNames(front) && last !in front
    ensures DistinctNames(front + [last])
  {
    DistinctTogether(front, [last]);
  }

  /** The header of such a file names every table of the dump exactly when it
      repeats no name: then the file has the dump's rows, all of them. */
  lemma DistinctHeaderHidesNothing(lib: Lib, order: Order, db: Db, header: Header, dumped: seq<Line>, lines: seq<Line>)
    requires RoundTrips(lib) && CollisionFree(lib) && Canonical(order) && AllJson(lib, db)
    requires IsDump(lib, order, db, header, dumped)
    requires WellFormed(lib, lines) && lines[|lines| - 1] == dumped[|dumped| - 1]
    ensures var tables := HeaderOf(lib, lines).value.tables;
            DistinctNames(tables) <==> forall t :: t in Dumped(db) ==> t in tables
    ensures DistinctNames(HeaderOf(lib, lines).value.tables)
            ==> forall t :: t in Dumped(db) ==> RowsIn(Pairs(lib, Middle(lines)), t) == order(t, db.tables[t])
  {
    PartsOfDump(lib, order, db, header, dumped);
    var tables := HeaderOf(lib, lines).value.tables;
    assert TrailerOf(lib, lines) == TrailerOf(lib, dumped);
    AllNamed(tables, TrailerOf(lib, lines).value);
    assert forall t :: t in Dumped(db) <==> t in TrailerOf(lib, lines).value;
    forall t | t in Dumped(db) && DistinctNames(tables)
      ensures RowsIn(Pairs(lib, Middle(lines)), t) == order(t, db.tables[t])
    {
      TrailerTellsRows(lib, order, db, header, dumped, lines, t);
    }
  }

  /** One user, no vault. */
  function OneUser(schema: int, row: Line): Db { Db(schema, map["users" := [row], "vaults" := []]) }

  /** A header that repeats the name of an empty table is accepted with the
      trailer of a dump that had a row in another. */
  lemma RepeatedNameAccepted(lib: Lib, order: Order, header: Header, row: Line)
    requires RoundTrips(lib) && Canonical(order)
    requires header.format == FORMAT && header.tables == ["vaults", "vaults"]
    ensures Dumped(OneUser(header.schema, row)) == ["users", "vaults"] && order("users", [row]) == [row]
    ensures WellFormed(lib, [Tagged(MAGIC, lib.printHeader(header)),
                             Tagged(END, lib.printTrailer(ChecksOf(lib, order, OneUser(header.schema, row))))])
  {
    var db := OneUser(header.schema, row);
    UsersAndVaults(db);
    SingleRow(order, row);
    DescribesTwice(lib, order, db, "users", "vaults");
    NothingButEnds(lib, header, ChecksOf(lib, order, db));
  }

  /** The checks of two tables, the second empty, described by its name twice. */
  lemma DescribesTwice(lib: Lib, order: Order, db: Db, u: string, t: string)
    requires Canonical(order) && Dumped(db) == [u, t] && u != t && t in db.tables && db.tables[t] == []
    ensures Describes(lib, [t, t], ChecksOf(lib, order, db), [])
  {
    assert forall i, j :: 0 <= i < j < 2 ==> [u, t][i] != [u, t][j];
    SameMembers(order(t, []), []);
    DistinctCount([u, t], ChecksOf(lib, order, db));
    NoRowAtAll(t);
  }

  lemma NoRowAtAll(t: string)
    ensures RowsIn([], t) == []
  {}

  lemma NothingButEnds(lib: Lib, header: Header, trailer: Trailer)
    requires RoundTrips(lib) && header.format == FORMAT && Describes(lib, header.tables, trailer, [])
    ensures WellFormed(lib, [Tagged(MAGIC, lib.printHeader(header)), Tagged(END, lib.printTrailer(trailer))])
  {
    EndsAreTagged(lib, header, trailer);
    var lines: seq<Line> := [Tagged(MAGIC, lib.printHeader(header)), Tagged(END, lib.printTrailer(trailer))];
    assert Middle(lines) == [];
    assert Pairs(lib, Middle(lines)) == [];
  }

  lemma SingleRow(order: Order, row: Line)
    requires Canonical(order)
    ensures order("users", [row]) == [row]
  {
    var r := order("users", [row]);
    SameMembers(r, [row]);
    assert r[0] in r;
  }

  lemma UsersAndVaults(db: Db)
    requires db.tables.Keys == {"users", "vaults"}
    ensures Dumped(db) == ["users", "vaults"] && DistinctNames(Dumped(db))
  {
    TablesAreDistinct();
    FirstTwo();
    OnlyTwo(TABLES, Known(db));
    DumpedAreDistinct(db);
  }

  lemma FirstTwo()
    ensures |TABLES| >= 2 && TABLES[0] == "users" && TABLES[1] == "vaults"
  {}

  lemma OnlyTwo(tables: seq<string>, p: string -> bool)
    requires DistinctNames(tables) && |tables| >= 2 && forall t :: p(t) <==> t == tables[0] || t == tables[1]
    ensures Filter(tables, p) == [tables[0], tables[1]]
  {
    NotAgain(tables);
    OnlyFirst([tables[0], tables[1]], tables[2..], p);
    assert tables == [tables[0], tables[1]] + tables[2..];
  }

  lemma NotAgain(tables: seq<string>)
    requires DistinctNames(tables) && |tables| >= 2
    ensures forall t :: t in tables[2..] ==> t != tables[0] && t != tables[1]
  {
    forall t | t in tables[2..] ensures t != tables[0] && t != tables[1] {
      var i :| 2 <= i < |tables| && tables[i] == t;
    }
  }

  lemma OnlyFirst(first: seq<string>, rest: seq<string>, p: string -> bool)
    requires (forall t :: t in first ==> p(t)) && forall t :: t in rest ==> !p(t)
    ensures Filter(first + rest, p) == first
  {
    FilterConcat(first, rest, p);
    FilterAll(first, p);
    FilterNone(rest, p);
  }

  // ---- the order of the rows -------------------------------------------------------------

  /** Every row of `b` comes after every row of `a`. */
  ghost predicate Before(pairs: seq<Pair>, a: string, b: string) {
    forall i, j :: 0 <= i < |pairs| && 0 <= j < |pairs| && pairs[i].0 == a && pairs[j].0 == b ==> i < j
  }

  lemma {:induction false} FilterKeepsOrder(tables: seq<string>, p: string -> bool, a: string, b: string)
    requires IndexOf(tables, a).Some? && IndexOf(tables, b).Some? && IndexOf(tables, a).value < IndexOf(tables, b).value
    requires p(a) && p(b)
    ensures IndexOf(Filter(tables, p), a).Some? && IndexOf(Filter(tables, p), b).Some?
    ensures IndexOf(Filter(tables, p), a).value < IndexOf(Filter(tables, p), b).value
  {
    var t := tables[1..];
    if tables[0] == a {
      IndexOfIsThere(t, b);
      ThereIsIndexOf(Filter(t, p), b);
      assert Filter(tables, p)[1..] == Filter(t, p);
    } else {
      FilterKeepsOrder(t, p, a, b);
      if p(tables[0]) {
        assert Filter(tables, p)[1..] == Filter(t, p);
      }
    }
  }

  lemma {:induction false} ThereIsIndexOf(tables: seq<string>, t: string)
    requires t in tables
    ensures IndexOf(tables, t).Some?
  {
    if tables[0] != t {
      ThereIsIndexOf(tables[1..], t);
    }
  }

  /** Tables written in this order come in this order in the file. */
  lemma WrittenBefore(db: Db, pairs: seq<Pair>, i: nat, j: nat)
    requires InHeaderOrder(Dumped(db), pairs) && i < j < |TABLES|
    ensures Before(pairs, TABLES[i], TABLES[j])
  {
    var a, b := TABLES[i], TABLES[j];
    TablesAreDistinct();
    IndexOfDistinct(TABLES, i);
    IndexOfDistinct(TABLES, j);
    forall k, l | 0 <= k < |pairs| && 0 <= l < |pairs| && pairs[k].0 == a && pairs[l].0 == b
      ensures k < l
    {
      IndexOfIsThere(Dumped(db), a);
      IndexOfIsThere(Dumped(db), b);
      FilterKeepsOrder(TABLES, Known(db), a, b);
    }
  }
}
