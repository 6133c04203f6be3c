/** Loading a backup by batches, and dumping what was loaded. */
module Restores {
  import opened Wrappers
  import opened Seqs
  import opened Backups
  import opened BackupCycle

  type Insert = (string, seq<Line>)

  /** The rows inserted, in order, whatever the batches. */
  function Flat(inserts: seq<Insert>): seq<Pair> {
    if inserts == [] then []
    else Flat(inserts[..|inserts| - 1]) + Block(inserts[|inserts| - 1].0, inserts[|inserts| - 1].1)
  }

  /** Every insertion has rows, of one table, and no more than 500; only a full
      one is followed by another of its table. */
  ghost predicate Batches(inserts: seq<Insert>) {
    && (forall i :: 0 <= i < |inserts| ==> 1 <= |inserts[i].1| <= 500)
    && (forall i :: 0 <= i < |inserts| - 1 && inserts[i].0 == inserts[i + 1].0 ==> |inserts[i].1| == 500)
  }

  /** The batch being filled is the next one. */
  ghost predicate Filling(inserts: seq<Insert>, table: string, batch: seq<Line>) {
    && |batch| <= 500 && (batch == [] ==> inserts == [])
    && (inserts != [] && inserts[|inserts| - 1].0 == table ==> |inserts[|inserts| - 1].1| == 500)
  }

  lemma BatchesOneMore(inserts: seq<Insert>, table: string, batch: seq<Line>)
    requires Batches(inserts) && Filling(inserts, table, batch)
    ensures batch == [] ==> inserts == []
    ensures batch != [] ==> Batches(inserts + [(table, batch)])
  {}

  type Tables = map<string, seq<Line>>

  /** What the migrations of a schema create, and which insertions the database
      refuses over what it holds (a key, a type, a reference). */
  datatype Engine = Engine(latest: int, tablesOf: int -> set<string>, refuses: (Tables, Insert) -> bool)

  class Target {
    var tables: Tables
    /** The insertions of the last transaction. */
    var inserts: seq<Insert>
    const engine: Engine

    constructor (engine: Engine, tables: Tables)
      ensures this.engine == engine && this.tables == tables && inserts == []
    {
      this.engine := engine;
      this.tables := tables;
      inserts := [];
    }

    method InsertBatch(table: string, rows: seq<Line>) returns (ok: bool)
      modifies this
      ensures ok <==> rows == [] || (table in old(tables) && !engine.refuses(old(tables), (table, rows)))
      ensures tables == if ok && rows != [] then old(tables)[table := old(tables)[table] + rows] else old(tables)
      ensures inserts == if ok && rows != [] then old(inserts) + [(table, rows)] else old(inserts)
    {
      if rows == [] {
        return true;
      }
      if table !in tables || engine.refuses(tables, (table, rows)) {
        return false;
      }
      tables := tables[table := tables[table] + rows];
      inserts := inserts + [(table, rows)];
      return true;
    }

    /** No row in the tables of the list. */
    ghost predicate Empty()
      reads this
    {
      forall t :: t in tables && t in TABLES ==> tables[t] == []
    }

    /** The tables of the list go, when they are empty; then those of a schema
        are made. */
    method Prepare(schema: int) returns (ok: bool)
      modifies this
      ensures ok <==> old(Empty())
      ensures !ok ==> tables == old(tables)
      ensures ok ==> tables == Fresh(engine.tablesOf(schema), old(tables))
      ensures inserts == []
    {
      inserts := [];
      if exists t :: t in tables.Keys && t in TABLES && tables[t] != [] {
        return false;
      }
      tables := Fresh(engine.tablesOf(schema), tables);
      return true;
    }

    /** One batch, after what was loaded since `before`. */
    method Flush(table: string, batch: seq<Line>, ghost before: Tables, ghost rest: seq<Pair>)
      returns (ok: bool)
      requires Loaded(before, tables, Flat(inserts)) && Batches(inserts) && Filling(inserts, table, batch)
      modifies this
      ensures ok ==> Loaded(before, tables, Flat(inserts)) && Batches(inserts)
      ensures ok ==> inserts == if batch == [] then [] else old(inserts) + [(table, batch)]
      ensures ok ==> Flat(inserts) == old(Flat(inserts)) + Block(table, batch)
      ensures Takes(engine, before, old(Flat(inserts)) + Block(table, batch) + rest) ==> ok
    {
      FlatOfOneMore(inserts, (table, batch));
      BatchesOneMore(inserts, table, batch);
      LoadedOneMore(before, tables, Flat(inserts), table, batch);
      TakesThis(engine, before, tables, Flat(inserts), table, batch, rest);
      ok := InsertBatch(table, batch);
    }

    /** One row more in the batch, another begun when it is full or of another
        table. */
    method Accept(table: string, batch: seq<Line>, t: string, json: Line, ghost before: Tables, ghost rest: seq<Pair>)
      returns (ok: bool, table': string, batch': seq<Line>)
      requires Loaded(before, tables, Flat(inserts)) && Batches(inserts) && Filling(inserts, table, batch)
      modifies this
      ensures ok ==> Loaded(before, tables, Flat(inserts)) && Batches(inserts) && Filling(inserts, table', batch')
      ensures ok ==> Flat(inserts) + Block(table', batch') == old(Flat(inserts)) + Block(table, batch) + [(t, json)]
      ensures Takes(engine, before, old(Flat(inserts)) + Block(table, batch) + rest) ==> ok
    {
      table', batch', ok := table, batch, true;
      if t != table || |batch| >= BATCH {
        ok := Flush(table, batch, before, rest);
        if !ok { return; }
        table', batch' := t, [];
        OneRowMore(Flat(inserts), t, [], json);
      } else {
        OneRowMore(Flat(inserts), t, batch, json);
      }
      batch' := batch' + [json];
    }

    /** The rows of the file, in order, at most a batch at a time. */
    method Load(lines: seq<Line>) returns (ok: bool)
      requires inserts == []
      modifies this
      ensures ok ==> Flat(inserts) == RowsBeforeEnd(lines) && Batches(inserts)
      ensures ok ==> Loaded(old(tables), tables, RowsBeforeEnd(lines))
      ensures Takes(engine, old(tables), RowsBeforeEnd(lines)) ==> ok
    {
      ghost var before, pairs := tables, RowsBeforeEnd(lines);
      var table, batch: seq<Line> := "", [];
      ghost var rest := pairs;
      var i := 0;
      assert lines[0..] == lines;
      NothingLoaded(tables);
      while i < |lines|
        invariant i <= |lines| && rest == RowsBeforeEnd(lines[i..])
        invariant Flat(inserts) + Block(table, batch) + rest == pairs
        invariant Batches(inserts) && Filling(inserts, table, batch)
        invariant Loaded(before, tables, Flat(inserts))
      {
        Advance(lines, i);
        var split := SplitOnce(lines[i]);
        if split.None? {
          i := i + 1;
          continue;
        }
        var (t, json) := split.value;
        if t == END {
          break;
        }
        SplitIsTagged(lines[i]);
        ghost var after := RowsBeforeEnd(lines[i + 1..]);
        Regroup(Flat(inserts) + Block(table, batch), [(t, json)], after, []);
        ok, table, batch := Accept(table, batch, t, json, before, rest);
        if !ok { return; }
        rest := after;
        i := i + 1;
      }
      assert rest == [];
      ok := Flush(table, batch, before, []);
    }

    /** A dump taken from a database whose tables the migrations make passes
        the check on any scratch database that refuses none of its rows. */
    method CheckDump(lib: Lib, order: Order, ghost db: Db, ghost header: Header, lines: seq<Line>, expected: Trailer, mark: Line)
      returns (e: Option<Error>)
      requires RoundTrips(lib) && Canonical(order) && AllJson(lib, db) && IsDump(lib, order, db, header, lines)
      requires SameTables(engine, db) && db.schema <= engine.latest && expected == ChecksOf(lib, order, db)
      requires tables == map[] || SCRATCH_MARK in tables
      requires WellFormed(lib, lines) && Takes(engine, Made(lib, lines, engine, Marked(mark)), Pairs(lib, Middle(lines)))
      modifies this
      ensures e.None?
      ensures forall t :: t in Dumped(db) ==> t in tables && tables[t] == order(t, db.tables[t])
    {
      DumpIsRestorable(lib, order, db, header, lines, engine);
      e := RestoreCheck(lib, order, lines, expected, mark);
      RestoredDumpsTheSame(lib, order, db, header, lines, engine, mark, tables);
      forall t | t in Dumped(db) ensures t in tables && tables[t] == order(t, db.tables[t]) {
        LoadedFromDump(lib, order, db, header, lines, engine, Marked(mark), tables, t);
      }
    }

    /** May the file be loaded by this version? */
    method Admit(lib: Lib, lines: seq<Line>) returns (r: Result<(Header, Trailer), Error>)
      ensures r.Ok? <==> Restorable(lib, lines, engine)
      ensures r.Ok? ==> r.value == (HeaderOf(lib, lines).value, TrailerOf(lib, lines).value)
      ensures r.Ok? ==> r.value.0.schema <= engine.latest && forall t :: t in r.value.0.tables ==> t in TABLES
      ensures r.Err? ==> Unfit(lib, lines, engine, r.error)
    {
      var verified := VerifyFile(lib, lines);
      if verified.Err? {
        return Err(verified.error);
      }
      var (header, trailer) := verified.value;
      if header.schema > engine.latest {
        return Err(NewerSchema);
      }
      if exists t :: t in header.tables && t !in TABLES {
        var t :| t in header.tables && t !in TABLES;
        return Err(UnknownToRestore(t));
      }
      return Ok((header, trailer));
    }

    /** Checks the file, prepares the schema it was taken from, and loads it in
        one transaction. */
    method Restore(lib: Lib, lines: seq<Line>) returns (r: Result<(Header, Trailer), Error>)
      modifies this
      ensures r.Ok? ==> Restorable(lib, lines, engine) && old(Empty())
      ensures r.Ok? ==> r.value.0.schema <= engine.latest && forall t :: t in r.value.0.tables ==> t in TABLES
      ensures r.Ok? ==> r.value == (HeaderOf(lib, lines).value, TrailerOf(lib, lines).value)
      ensures r.Ok? ==> Loaded(Made(lib, lines, engine, old(tables)), tables, Pairs(lib, Middle(lines)))
      ensures r.Ok? ==> Flat(inserts) == Pairs(lib, Middle(lines)) && Batches(inserts)
      ensures r.Err? ==> inserts == [] && Refusal(lib, lines, engine, old(Empty()), r.error)
      ensures r.Err? ==> tables == old(tables)
                         || (Restorable(lib, lines, engine) && old(Empty()) && tables == Made(lib, lines, engine, old(tables)))
      ensures Restorable(lib, lines, engine) && old(Empty())
              && Takes(engine, Made(lib, lines, engine, old(tables)), Pairs(lib, Middle(lines)))
              ==> r.Ok?
    {
      inserts := [];
      var admitted := Admit(lib, lines);
      if admitted.Err? {
        return admitted;
      }
      var (header, trailer) := admitted.value;
      var ready := Prepare(header.schema);
      if !ready {
        return Err(TargetNotEmpty);
      }
      var before := tables;
      ReadAgain(lib, lines, 1);
      var ok := Load(lines[1..]);
      if !ok {
        tables, inserts := before, [];
        return Err(InsertFailed);
      }
      return Ok((header, trailer));
    }

    /** The proof by restoring: the file is loaded in a scratch database, wiped
        first, and what is dumped from there must be what was expected. */
    method RestoreCheck(lib: Lib, order: Order, lines: seq<Line>, expected: Trailer, mark: Line) returns (e: Option<Error>)
      modifies this
      ensures e.None? ==> Restorable(lib, lines, engine) && Db(HeaderOf(lib, lines).value.schema, tables).Passes(lib, order, expected)
      ensures old(tables) != map[] && "guivault_restore_check" !in old(tables) ==> e == Some(TargetNotEmpty) && tables == old(tables)
      ensures old(tables) == map[] || "guivault_restore_check" in old(tables) ==> "guivault_restore_check" in tables
      ensures (old(tables) == map[] || SCRATCH_MARK in old(tables)) && Restorable(lib, lines, engine)
              && Takes(engine, Made(lib, lines, engine, Marked(mark)), Pairs(lib, Middle(lines)))
              ==> (e.None? <==> Db(HeaderOf(lib, lines).value.schema, tables).Passes(lib, order, expected))
                  && Loaded(Made(lib, lines, engine, Marked(mark)), tables, Pairs(lib, Middle(lines)))
    {
      if tables != map[] && SCRATCH_MARK !in tables {
        return Some(TargetNotEmpty);
      }
      tables := Marked(mark);
      MarkIsNoTable();
      var restored := Restore(lib, lines);
      if restored.Err? {
        return Some(restored.error);
      }
      e := CompareChecks(lib, order, Db(restored.value.0.schema, tables), expected);
    }
  }

  const SCRATCH_MARK := "guivault_restore_check"

  lemma MarkIsNoTable()
    ensures SCRATCH_MARK !in TABLES
  {
    assert SCRATCH_MARK !in VAULT_TABLES && SCRATCH_MARK !in ACCOUNT_TABLES;
    assert SCRATCH_MARK !in SEND_TABLES && SCRATCH_MARK !in OTHER_TABLES;
  }

  /** Dumps the database again, and compares. */
  method CompareChecks(lib: Lib, order: Order, db: Db, expected: Trailer) returns (e: Option<Error>)
    ensures e.None? <==> db.Passes(lib, order, expected)
  {
    var again := Dump(lib, order, db, "", 0);
    if again.Err? {
      return Some(again.error);
    }
    e := CompareEntries(again.value.2, expected);
  }

  method CompareEntries(checks: Trailer, expected: Trailer) returns (e: Option<Error>)
    ensures e.None? <==> SameEntries(checks, expected)
  {
    if exists t :: t in expected.Keys && (t !in checks || checks[t] != expected[t]) {
      return Some(CheckFailed);
    }
    return if |checks| != |expected| then Some(CheckFailed) else None;
  }

  function Marked(mark: Line): Tables { map[SCRATCH_MARK := [mark]] }

  /** The file may be loaded by this version. */
  ghost predicate Restorable(lib: Lib, lines: seq<Line>, engine: Engine) {
    && WellFormed(lib, lines)
    && HeaderOf(lib, lines).value.schema <= engine.latest
    && forall t :: t in HeaderOf(lib, lines).value.tables ==> t in TABLES
  }

  /** What each refusal of a file says: of the file, or of this version. */
  ghost predicate Unfit(lib: Lib, lines: seq<Line>, engine: Engine, e: Error) {
    match e
    case NewerSchema => WellFormed(lib, lines) && HeaderOf(lib, lines).value.schema > engine.latest
    case UnknownToRestore(t) => WellFormed(lib, lines) && t in HeaderOf(lib, lines).value.tables && t !in TABLES
    case _ => !WellFormed(lib, lines) && Blames(lib, lines, e)
  }

  /** What each refusal to load says: of the file, of the target, or of a row. */
  ghost predicate Refusal(lib: Lib, lines: seq<Line>, engine: Engine, empty: bool, e: Error) {
    if e == TargetNotEmpty then Restorable(lib, lines, engine) && !empty
    else if e == InsertFailed then Restorable(lib, lines, engine) && empty
    else Unfit(lib, lines, engine, e)
  }

  ghost function Made(lib: Lib, lines: seq<Line>, engine: Engine, tables: Tables): Tables
    requires WellFormed(lib, lines)
  {
    Fresh(engine.tablesOf(HeaderOf(lib, lines).value.schema), tables)
  }

  lemma NothingLoaded(tables: Tables)
    ensures Loaded(tables, tables, []) && forall t :: Block(t, []) == []
  {}

  lemma Advance(lines: seq<Line>, i: nat)
    requires i < |lines|
    ensures var split := SplitOnce(lines[i]);
            RowsBeforeEnd(lines[i..])
            == if split.None? then RowsBeforeEnd(lines[i + 1..])
               else if split.value.0 == END then []
               else [split.value] + RowsBeforeEnd(lines[i + 1..])
  {
    assert lines[i..][1..] == lines[i + 1..];
  }

  lemma OneRowMore(flat: seq<Pair>, t: string, batch: seq<Line>, json: string)
    ensures flat + Block(t, batch + [json]) == flat + Block(t, batch) + [(t, json)]
    ensures flat + Block(t, []) == flat
  {
    assert Block(t, batch + [json]) == Block(t, batch) + [(t, json)];
  }

  function Fresh(made: set<string>, tables: Tables): Tables {
    map t | t in tables.Keys + made && (t in made || t !in TABLES) :: if t in made then [] else tables[t]
  }

  /** What a reader that stops at the first END and skips lines without a tab
      finds. */
  function RowsBeforeEnd(lines: seq<Line>): (pairs: seq<Pair>) {
    if lines == [] then []
    else
      var split := SplitOnce(lines[0]);
      if split.None? then RowsBeforeEnd(lines[1..])
      else if split.value.0 == END then []
      else [split.value] + RowsBeforeEnd(lines[1..])
  }

  /** `insert` is a batch of these rows, over what was loaded of those before it. */
  ghost predicate Follows(before: Tables, tables: Tables, pairs: seq<Pair>, done: seq<Pair>, insert: Insert, rest: seq<Pair>) {
    && Loaded(before, tables, done)
    && 1 <= |insert.1| <= 500
    && pairs == done + Block(insert.0, insert.1) + rest
  }

  /** The database has the tables of the rows and, loaded in this order, refuses
      none of them, in whatever batches. */
  ghost predicate Takes(engine: Engine, before: Tables, pairs: seq<Pair>) {
    && (forall p :: p in pairs ==> p.0 in before)
    && (forall tables, done, insert: Insert, rest ::
          Follows(before, tables, pairs, done, insert, rest) ==> !engine.refuses(tables, insert))
  }

  ghost predicate Loaded(before: Tables, after: Tables, pairs: seq<Pair>) {
    && after.Keys == before.Keys
    && forall t :: t in after ==> after[t] == before[t] + RowsIn(pairs, t)
  }

  lemma FlatOfOneMore(inserts: seq<Insert>, insert: Insert)
    ensures Flat(inserts + [insert]) == Flat(inserts) + Block(insert.0, insert.1)
    ensures insert.1 == [] ==> Block(insert.0, insert.1) == []
  {
    assert (inserts + [insert])[..|inserts|] == inserts;
  }

  lemma LoadedOneMore(before: Tables, tables: Tables, flat: seq<Pair>, table: string, batch: seq<Line>)
    requires Loaded(before, tables, flat)
    ensures table in tables ==> Loaded(before, tables[table := tables[table] + batch], flat + Block(table, batch))
  {
    forall t ensures RowsIn(flat + Block(table, batch), t) == RowsIn(flat, t) + if t == table then batch else [] {
      RowsInConcat(flat, Block(table, batch), t);
      BlockRows(table, batch, t);
    }
  }

  lemma TakesThis(engine: Engine, before: Tables, tables: Tables, flat: seq<Pair>, table: string, batch: seq<Line>, rest: seq<Pair>)
    requires Loaded(before, tables, flat) && |batch| <= 500
    ensures Takes(engine, before, flat + Block(table, batch) + rest)
            ==> batch == [] || (table in tables && !engine.refuses(tables, (table, batch)))
  {
    var pairs := flat + Block(table, batch) + rest;
    if batch != [] {
      assert pairs[|flat|] == (table, batch[0]);
      assert Follows(before, tables, pairs, flat, (table, batch), rest);
    }
  }

  lemma {:induction false} ReadAgain(lib: Lib, lines: seq<Line>, i: nat)
    requires WellFormed(lib, lines) && 1 <= i < |lines|
    ensures RowsBeforeEnd(lines[i..]) == Pairs(lib, Middle(lines))[i - 1..]
    decreases |lines| - i
  {
    var pairs := Pairs(lib, Middle(lines));
    Advance(lines, i);
    if i < |lines| - 1 {
      assert Middle(lines)[i - 1] == lines[i];
      ReadAgain(lib, lines, i + 1);
      assert pairs[i - 1..] == [pairs[i - 1]] + pairs[i..];
    }
  }

  lemma DumpIsRestorable(lib: Lib, order: Order, db: Db, header: Header, lines: seq<Line>, engine: Engine)
    requires RoundTrips(lib) && Canonical(order) && AllJson(lib, db) && IsDump(lib, order, db, header, lines)
    requires db.schema <= engine.latest
    ensures Restorable(lib, lines, engine) && HeaderOf(lib, lines) == Some(header)
  {
    DumpIsAccepted(lib, order, db, header, lines);
    PartsOfDump(lib, order, db, header, lines);
  }

  // ---- dump, restore, dump ---------------------------------------------------------------

  /** The migrations of the schema make the tables the database has. */
  ghost predicate SameTables(engine: Engine, db: Db) {
    && (forall t :: t in TABLES ==> (t in engine.tablesOf(db.schema) <==> t in db.tables))
    && (forall t :: t in engine.tablesOf(db.schema) ==> t in TABLES || t in NOT_DATA)
  }

  lemma ReorderedOnce(order: Order, t: string, rows: seq<Line>)
    requires Canonical(order)
    ensures order(t, order(t, rows)) == order(t, rows)
  {}

  /** What is loaded from a dump, table by table. */
  lemma LoadedFromDump(lib: Lib, order: Order, db: Db, header: Header, lines: seq<Line>, engine: Engine,
                       before: Tables, after: Tables, t: string)
    requires RoundTrips(lib) && Canonical(order) && AllJson(lib, db) && IsDump(lib, order, db, header, lines)
    requires WellFormed(lib, lines) && SameTables(engine, db)
    requires Loaded(Made(lib, lines, engine, before), after, Pairs(lib, Middle(lines)))
    requires t in TABLES
    ensures t in after <==> t in db.tables
    ensures t in after ==> after[t] == order(t, db.tables[t])
  {
    PartsOfDump(lib, order, db, header, lines);
    DumpIsAccepted(lib, order, db, header, lines);
    assert t in Dumped(db) <==> t in db.tables;
    assert t in Made(lib, lines, engine, before) ==> Made(lib, lines, engine, before)[t] == [];
  }

  lemma SameDumpedTables(db: Db, db': Db)
    requires forall t :: t in TABLES ==> (t in db.tables <==> t in db'.tables)
    ensures Dumped(db') == Dumped(db)
  {
    FilterAgree(TABLES, Known(db), Known(db'));
  }

  lemma SameChecks(lib: Lib, order: Order, db: Db, db': Db)
    requires Canonical(order)
    requires forall t :: t in TABLES ==> (t in db.tables <==> t in db'.tables)
    requires forall t :: t in TABLES && t in db.tables ==> db'.tables[t] == order(t, db.tables[t])
    ensures ChecksOf(lib, order, db') == ChecksOf(lib, order, db)
  {
    SameDumpedTables(db, db');
    forall t | t in Dumped(db) ensures Ordered(order, db')(t) == Ordered(order, db)(t) {
      ReorderedOnce(order, t, db.tables[t]);
    }
  }

  /** Restoring undoes dumping: what was loaded from the dump of a database,
      dumped again, gives the counts and digests of the file. */
  lemma RestoredDumpsTheSame(lib: Lib, order: Order, db: Db, header: Header, lines: seq<Line>, engine: Engine,
                             mark: Line, after: Tables)
    requires RoundTrips(lib) && Canonical(order) && AllJson(lib, db) && IsDump(lib, order, db, header, lines)
    requires SameTables(engine, db) && WellFormed(lib, lines)
    requires Loaded(Made(lib, lines, engine, Marked(mark)), after, Pairs(lib, Middle(lines)))
    ensures Db(db.schema, after).Passes(lib, order, ChecksOf(lib, order, db))
  {
    var db' := Db(db.schema, after);
    forall t | t in TABLES
      ensures t in db.tables <==> t in db'.tables
      ensures t in db.tables ==> db'.tables[t] == order(t, db.tables[t])
    {
      LoadedFromDump(lib, order, db, header, lines, engine, Marked(mark), after, t);
    }
    SameChecks(lib, order, db, db');
    PartsOfDump(lib, order, db, header, lines);
  }

  // ---- references between tables -----------------------------------------------------------

  /** A row by key in a table. */
  type Ref = (string, string)

  /** What the schema asks of a row: its types and checks, the unique keys it
      takes in its table, and the rows it refers to. */
  datatype Rules = Rules(fits: Pair -> bool, keys: Pair -> set<string>, refers: Pair -> set<Ref>)

  /** The tables each table refers to, as the migrations declare them. */
  function Parents(t: string): set<string> {
    if t in ["vault_members", "item_versions", "attachments", "invitations"] then {"users", "vaults"}
    else if t == "items" then {"vaults"}
    else if t == "attachment_chunks" then {"attachments"}
    else if t in ["send_chunks", "send_downloads"] then {"sends"}
    else if t == "emergency_vault_keys" then {"emergency_grants", "vaults"}
    else if t in ["users", "vaults", "audit_log", "backup_runs"] then {}
    else {"users"}
  }

  ghost predicate Declared(rules: Rules) {
    forall p, ref :: ref in rules.refers(p) ==> ref.0 in Parents(p.0)
  }

  function HasKey(rules: Rules, t: string, key: string): string -> bool { (row: string) => key in rules.keys((t, row)) }

  /** No key twice. */
  ghost predicate KeysOnce(rules: Rules, t: string, rows: seq<string>) {
    forall key :: |Filter(rows, HasKey(rules, t, key))| <= 1
  }

  ghost predicate Held(rules: Rules, tables: Tables, ref: Ref) {
    ref.0 in tables && exists row :: row in tables[ref.0] && ref.1 in rules.keys((ref.0, row))
  }

  ghost predicate RowsFit(rules: Rules, t: string, rows: seq<string>) { forall row :: row in rows ==> rules.fits((t, row)) }

  ghost predicate RefsHeld(rules: Rules, tables: Tables, t: string, rows: seq<string>) {
    forall row, ref :: row in rows && ref in rules.refers((t, row)) ==> Held(rules, tables, ref)
  }

  /** The insertion breaks no rule; what rows refer to is looked for once they
      are all there. */
  ghost predicate Accepts(rules: Rules, tables: Tables, insert: Insert)
    requires insert.0 in tables
  {
    var (t, rows) := insert;
    var after := tables[t] + rows;
    RowsFit(rules, t, rows) && KeysOnce(rules, t, after) && RefsHeld(rules, tables[t := after], t, rows)
  }

  /** The database refuses exactly what breaks a rule. */
  ghost predicate Enforces(engine: Engine, rules: Rules) {
    forall tables, insert: Insert :: insert.0 in tables ==> (engine.refuses(tables, insert) <==> !Accepts(rules, tables, insert))
  }

  ghost predicate Found(rules: Rules, pairs: seq<Pair>, ref: Ref) {
    exists p :: p in pairs && p.0 == ref.0 && ref.1 in rules.keys(p)
  }

  /** The last of these rows fits, takes no key of an earlier one, and refers to
      itself or to earlier ones. */
  ghost predicate RowTaken(rules: Rules, upTo: seq<Pair>, p: Pair) {
    && rules.fits(p)
    && KeysOnce(rules, p.0, RowsIn(upTo, p.0))
    && forall ref :: ref in rules.refers(p) ==> Found(rules, upTo, ref)
  }

  ghost predicate Orderly(rules: Rules, pairs: seq<Pair>) {
    forall i :: 0 <= i < |pairs| ==> RowTaken(rules, pairs[..i + 1], pairs[i])
  }

  /** The tables of the list are empty. */
  ghost predicate Blank(before: Tables) { forall t :: t in before && t in TABLES ==> before[t] == [] }

  /** Rows of tables that are there, each on one line. */
  ghost predicate Listed(before: Tables, pairs: seq<Pair>) {
    forall p :: p in pairs ==> p.0 in before && p.0 in TABLES && '\n' !in p.1
  }

  lemma RowsAreMembers(pairs: seq<Pair>, t: string, row: string)
    ensures row in RowsIn(pairs, t) <==> (t, row) in pairs
  {
    var f := Filter(pairs, TagIs(t));
    if row in RowsIn(pairs, t) {
      var k :| 0 <= k < |f| && RowsIn(pairs, t)[k] == row;
      assert f[k] in pairs && f[k] == (t, row);
    }
    if (t, row) in pairs {
      assert (t, row) in f;
      var k :| 0 <= k < |f| && f[k] == (t, row);
      assert RowsIn(pairs, t)[k] == row;
    }
  }

  lemma LoadedMember(before: Tables, tables: Tables, done: seq<Pair>, t: string, row: string)
    requires Loaded(before, tables, done) && Blank(before) && Listed(before, done) && t in TABLES
    ensures t in tables && row in tables[t] <==> (t, row) in done
  {
    RowsAreMembers(done, t, row);
    assert (t, row) in done ==> t in before;
  }

  lemma HeldIsFound(rules: Rules, before: Tables, tables: Tables, done: seq<Pair>, ref: Ref)
    requires Loaded(before, tables, done) && Blank(before) && Listed(before, done) && ref.0 in TABLES
    ensures Held(rules, tables, ref) <==> Found(rules, done, ref)
  {
    if Held(rules, tables, ref) {
      var row: string :| row in tables[ref.0] && ref.1 in rules.keys((ref.0, row));
      LoadedMember(before, tables, done, ref.0, row);
    }
    if p :| p in done && p.0 == ref.0 && ref.1 in rules.keys(p) {
      LoadedMember(before, tables, done, ref.0, p.1);
    }
  }

  lemma ParentsAreListed(t: string, u: string)
    requires u in Parents(t)
    ensures u in TABLES
  {
    assert VAULT_TABLES[0] == "users" && VAULT_TABLES[1] == "vaults" && VAULT_TABLES[5] == "attachments";
    assert SEND_TABLES[2] == "sends" && OTHER_TABLES[0] == "emergency_grants";
  }

  lemma AfterInsert(before: Tables, tables: Tables, done: seq<Pair>, t: string, rows: seq<Line>)
    requires Loaded(before, tables, done) && Blank(before) && t in before && t in TABLES
    ensures Loaded(before, tables[t := tables[t] + rows], done + Block(t, rows))
    ensures tables[t] + rows == RowsIn(done + Block(t, rows), t)
  {
    LoadedOneMore(before, tables, done, t, rows);
    RowsInConcat(done, Block(t, rows), t);
    BlockRows(t, rows, t);
  }

  ghost predicate RefsFound(rules: Rules, all: seq<Pair>, t: string, rows: seq<string>) {
    forall row, ref :: row in rows && ref in rules.refers((t, row)) ==> Found(rules, all, ref)
  }

  /** What the rules ask of an insertion, among the rows loaded so far. */
  ghost predicate Fitting(rules: Rules, all: seq<Pair>, t: string, rows: seq<string>) {
    RowsFit(rules, t, rows) && KeysOnce(rules, t, RowsIn(all, t)) && RefsFound(rules, all, t, rows)
  }

  lemma RefsSame(rules: Rules, before: Tables, tables: Tables, all: seq<Pair>, t: string, rows: seq<string>)
    requires Declared(rules) && Loaded(before, tables, all) && Blank(before) && Listed(before, all)
    ensures RefsHeld(rules, tables, t, rows) <==> RefsFound(rules, all, t, rows)
  {
    forall row, ref | row in rows && ref in rules.refers((t, row))
      ensures Held(rules, tables, ref) <==> Found(rules, all, ref)
    {
      ParentsAreListed(t, ref.0);
      HeldIsFound(rules, before, tables, all, ref);
    }
  }

  lemma AcceptsMeans(rules: Rules, before: Tables, tables: Tables, done: seq<Pair>, insert: Insert)
    requires Declared(rules) && Loaded(before, tables, done) && Blank(before)
    requires Listed(before, done + Block(insert.0, insert.1)) && insert.0 in before && insert.0 in TABLES
    ensures Accepts(rules, tables, insert) <==> Fitting(rules, done + Block(insert.0, insert.1), insert.0, insert.1)
  {
    var (t, rows) := insert;
    AfterInsert(before, tables, done, t, rows);
    RefsSame(rules, before, tables[t := tables[t] + rows], done + Block(t, rows), t, rows);
  }

  lemma FoundInMore(rules: Rules, pairs: seq<Pair>, more: seq<Pair>, ref: Ref)
    requires Found(rules, pairs, ref)
    ensures Found(rules, pairs + more, ref)
  {
    var p :| p in pairs && p.0 == ref.0 && ref.1 in rules.keys(p);
    assert p in pairs + more;
  }

  lemma BatchCut(done: seq<Pair>, t: string, rows: seq<Line>, rest: seq<Pair>, k: nat)
    requires k < |rows|
    ensures var pairs := done + Block(t, rows) + rest;
            && pairs[|done| + k] == (t, rows[k])
            && pairs[..|done| + k + 1] + Block(t, rows[k + 1..]) == done + Block(t, rows)
  {}

  lemma RowOfBatch(rules: Rules, pairs: seq<Pair>, done: seq<Pair>, t: string, rows: seq<Line>, rest: seq<Pair>, k: nat)
    requires Orderly(rules, pairs) && pairs == done + Block(t, rows) + rest && k < |rows|
    ensures rules.fits((t, rows[k]))
    ensures forall ref :: ref in rules.refers((t, rows[k])) ==> Found(rules, done + Block(t, rows), ref)
  {
    BatchCut(done, t, rows, rest, k);
    assert RowTaken(rules, pairs[..|done| + k + 1], pairs[|done| + k]);
    forall ref | ref in rules.refers((t, rows[k])) ensures Found(rules, done + Block(t, rows), ref) {
      FoundInMore(rules, pairs[..|done| + k + 1], Block(t, rows[k + 1..]), ref);
    }
  }

  lemma OrderlyFits(rules: Rules, pairs: seq<Pair>, done: seq<Pair>, t: string, rows: seq<Line>, rest: seq<Pair>)
    requires Orderly(rules, pairs) && pairs == done + Block(t, rows) + rest && rows != []
    ensures Fitting(rules, done + Block(t, rows), t, rows)
  {
    var last := |done| + |rows| - 1;
    BatchCut(done, t, rows, rest, |rows| - 1);
    assert pairs[..last + 1] == done + Block(t, rows);
    assert RowTaken(rules, pairs[..last + 1], pairs[last]);
    forall row | row in rows
      ensures rules.fits((t, row)) && forall ref :: ref in rules.refers((t, row)) ==> Found(rules, done + Block(t, rows), ref)
    {
      var k :| 0 <= k < |rows| && rows[k] == row;
      RowOfBatch(rules, pairs, done, t, rows, rest, k);
    }
  }

  lemma ListedBatch(before: Tables, done: seq<Pair>, t: string, rows: seq<Line>, rest: seq<Pair>)
    requires Listed(before, done + Block(t, rows) + rest) && rows != []
    ensures Listed(before, done + Block(t, rows)) && t in before && t in TABLES
  {
    var pairs := done + Block(t, rows) + rest;
    assert forall p :: p in done + Block(t, rows) ==> p in pairs;
    assert pairs[|done|] == (t, rows[0]);
    assert pairs[|done|] in pairs;
  }

  /** What was loaded. */
  ghost function Loading(before: Tables, pairs: seq<Pair>): Tables
    requires Listed(before, pairs)
  {
    map t | t in before :: before[t] + LinesIn(before, pairs, t)
  }

  ghost function LinesIn(before: Tables, pairs: seq<Pair>, t: string): (lines: seq<Line>)
    requires Listed(before, pairs)
    ensures lines == RowsIn(pairs, t)
  {
    assert forall row :: row in RowsIn(pairs, t) ==> '\n' !in row by {
      forall row ensures row in RowsIn(pairs, t) <==> (t, row) in pairs { RowsAreMembers(pairs, t, row); }
    }
    assert forall k :: 0 <= k < |RowsIn(pairs, t)| ==> RowsIn(pairs, t)[k] in RowsIn(pairs, t);
    RowsIn(pairs, t)
  }

  lemma OneRowCut(pairs: seq<Pair>, i: nat)
    requires i < |pairs|
    ensures pairs == pairs[..i] + Block(pairs[i].0, [pairs[i].1]) + pairs[i + 1..]
    ensures pairs[..i + 1] == pairs[..i] + Block(pairs[i].0, [pairs[i].1])
  {
    assert Block(pairs[i].0, [pairs[i].1]) == [pairs[i]];
  }

  lemma TakenRow(engine: Engine, rules: Rules, before: Tables, pairs: seq<Pair>, i: nat)
    requires Enforces(engine, rules) && Declared(rules) && Blank(before) && Listed(before, pairs)
    requires Takes(engine, before, pairs) && i < |pairs|
    ensures RowTaken(rules, pairs[..i + 1], pairs[i])
  {
    var t := pairs[i].0;
    assert pairs[i] in pairs;
    var row: Line := pairs[i].1;
    OneRowCut(pairs, i);
    ListedBatch(before, pairs[..i], t, [row], pairs[i + 1..]);
    assert Listed(before, pairs[..i]);
    var tables := Loading(before, pairs[..i]);
    assert Follows(before, tables, pairs, pairs[..i], (t, [row]), pairs[i + 1..]);
    AcceptsMeans(rules, before, tables, pairs[..i], (t, [row]));
    FittingRow(rules, pairs[..i + 1], t, row);
  }

  lemma FittingRow(rules: Rules, all: seq<Pair>, t: string, row: string)
    requires Fitting(rules, all, t, [row])
    ensures RowTaken(rules, all, (t, row))
  {
    assert row in [row];
  }

  /** Rows loaded over empty tables are refused in no batches exactly when each
      fits, takes no key of an earlier one, and comes after the rows it refers
      to, itself aside. */
  lemma TakesExactly(engine: Engine, rules: Rules, before: Tables, pairs: seq<Pair>)
    requires Enforces(engine, rules) && Declared(rules) && Blank(before) && Listed(before, pairs)
    ensures Takes(engine, before, pairs) <==> Orderly(rules, pairs)
  {
    if Takes(engine, before, pairs) {
      forall i | 0 <= i < |pairs| ensures RowTaken(rules, pairs[..i + 1], pairs[i]) {
        TakenRow(engine, rules, before, pairs, i);
      }
    }
    if Orderly(rules, pairs) {
      forall tables, done, insert: Insert, rest | Follows(before, tables, pairs, done, insert, rest)
        ensures !engine.refuses(tables, insert)
      {
        ListedBatch(before, done, insert.0, insert.1, rest);
        OrderlyFits(rules, pairs, done, insert.0, insert.1, rest);
        AcceptsMeans(rules, before, tables, done, insert);
      }
    }
  }

  // ---- the order of the tables ----------------------------------------------------------------

  /** Its place in the list. */
  lemma At(i: nat, t: string)
    requires i < |TABLES| && TABLES[i] == t
    ensures IndexOf(TABLES, t) == Some(i)
  {
    TablesAreDistinct();
    IndexOfDistinct(TABLES, i);
  }

  lemma UsersAndVaultsFirst(t: string)
    requires t in TABLES && t != "users" && t != "vaults"
    ensures IndexOf(TABLES, "users") == Some(0) && IndexOf(TABLES, "vaults") == Some(1)
    ensures IndexOf(TABLES, t).Some? && IndexOf(TABLES, t).value > 1
  {
    assert TABLES[0] == "users" && TABLES[1] == "vaults";
    At(0, "users");
    At(1, "vaults");
    ThereIsIndexOf(TABLES, t);
    IndexOfIsThere(TABLES, t);
  }

  /** The parents and their children, in the list. */
  lemma Places()
    ensures TABLES[5] == "attachments" && TABLES[6] == "attachment_chunks"
    ensures TABLES[15] == "sends" && TABLES[16] == "send_chunks" && TABLES[17] == "send_downloads"
    ensures TABLES[18] == "emergency_grants" && TABLES[19] == "emergency_vault_keys"
  {}

  lemma OtherParents(t: string, u: string)
    requires u in Parents(t) && u != "users" && u != "vaults"
    ensures exists i, j :: 0 <= i < j < |TABLES| && TABLES[i] == u && TABLES[j] == t
  {
    Places();
  }

  /** Every table comes after those it refers to. */
  lemma ParentsComeFirst(t: string, u: string)
    requires t in TABLES && u in Parents(t)
    ensures IndexOf(TABLES, u).Some? && IndexOf(TABLES, t).Some? && IndexOf(TABLES, u).value < IndexOf(TABLES, t).value
  {
    if u == "users" || u == "vaults" {
      UsersAndVaultsFirst(t);
    } else {
      OtherParents(t, u);
      var i, j :| 0 <= i < j < |TABLES| && TABLES[i] == u && TABLES[j] == t;
      At(i, u);
      At(j, t);
    }
  }

  // ---- a dump is taken ----------------------------------------------------------------------

  /** The database keeps its rules. */
  ghost predicate Integrity(rules: Rules, db: Db) {
    forall t :: t in Dumped(db) ==>
      RowsFit(rules, t, db.tables[t]) && KeysOnce(rules, t, db.tables[t]) && RefsHeld(rules, db.tables, t, db.tables[t])
  }

  lemma KeysOncePermuted(rules: Rules, t: string, rows: seq<string>, rows': seq<string>)
    requires KeysOnce(rules, t, rows) && multiset(rows') == multiset(rows)
    ensures KeysOnce(rules, t, rows')
  {
    forall key ensures |Filter(rows', HasKey(rules, t, key))| <= 1 {
      CountPermuted(rows, rows', HasKey(rules, t, key));
    }
  }

  lemma KeysOnceBefore(rules: Rules, t: string, pairs: seq<Pair>, more: seq<Pair>)
    requires KeysOnce(rules, t, RowsIn(pairs + more, t))
    ensures KeysOnce(rules, t, RowsIn(pairs, t))
  {
    RowsInConcat(pairs, more, t);
    forall key ensures |Filter(RowsIn(pairs, t), HasKey(rules, t, key))| <= 1 {
      FilterConcat(RowsIn(pairs, t), RowsIn(more, t), HasKey(rules, t, key));
      assert |Filter(RowsIn(pairs + more, t), HasKey(rules, t, key))| <= 1;
    }
  }

  /** The rows of a dump are those of the tables. */
  ghost predicate DumpedRows(order: Order, db: Db, pairs: seq<Pair>) {
    && InHeaderOrder(Dumped(db), pairs)
    && forall t :: t in Dumped(db) ==> RowsIn(pairs, t) == order(t, db.tables[t])
  }

  lemma DumpedMember(order: Order, db: Db, pairs: seq<Pair>, t: string, row: string)
    requires Canonical(order) && DumpedRows(order, db, pairs) && t in Dumped(db)
    ensures (t, row) in pairs <==> row in db.tables[t]
  {
    RowsAreMembers(pairs, t, row);
    SameMembers(order(t, db.tables[t]), db.tables[t]);
  }

  lemma ReferenceComesFirst(rules: Rules, order: Order, db: Db, pairs: seq<Pair>, i: nat, ref: Ref)
    requires Canonical(order) && Declared(rules) && DumpedRows(order, db, pairs) && i < |pairs|
    requires ref in rules.refers(pairs[i]) && Held(rules, db.tables, ref)
    ensures Found(rules, pairs[..i + 1], ref)
  {
    var t := pairs[i].0;
    IndexOfIsThere(Dumped(db), t);
    ParentsAreListed(t, ref.0);
    ParentsComeFirst(t, ref.0);
    var row :| row in db.tables[ref.0] && ref.1 in rules.keys((ref.0, row));
    DumpedMember(order, db, pairs, ref.0, row);
    var j :| 0 <= j < |pairs| && pairs[j] == (ref.0, row);
    IndexOfIsThere(TABLES, ref.0);
    IndexOfIsThere(TABLES, t);
    WrittenBefore(db, pairs, IndexOf(TABLES, ref.0).value, IndexOf(TABLES, t).value);
    assert pairs[..i + 1][j] == (ref.0, row);
  }

  lemma DumpIsOrderly(rules: Rules, order: Order, db: Db, pairs: seq<Pair>)
    requires Canonical(order) && Declared(rules) && Integrity(rules, db) && DumpedRows(order, db, pairs)
    ensures Orderly(rules, pairs)
  {
    forall i | 0 <= i < |pairs| ensures RowTaken(rules, pairs[..i + 1], pairs[i]) {
      var t, row := pairs[i].0, pairs[i].1;
      IndexOfIsThere(Dumped(db), t);
      DumpedMember(order, db, pairs, t, row);
      KeysOncePermuted(rules, t, db.tables[t], order(t, db.tables[t]));
      assert pairs == pairs[..i + 1] + pairs[i + 1..];
      KeysOnceBefore(rules, t, pairs[..i + 1], pairs[i + 1..]);
      forall ref | ref in rules.refers(pairs[i]) ensures Found(rules, pairs[..i + 1], ref) {
        ReferenceComesFirst(rules, order, db, pairs, i, ref);
      }
    }
  }

  /** No insertion of the dump of a database that keeps its rules is refused,
      thanks to the order of the tables. */
  lemma DumpIsTaken(lib: Lib, order: Order, db: Db, header: Header, lines: seq<Line>, engine: Engine, rules: Rules, before: Tables)
    requires RoundTrips(lib) && Canonical(order) && AllJson(lib, db) && IsDump(lib, order, db, header, lines)
    requires SameTables(engine, db) && Enforces(engine, rules) && Declared(rules) && Integrity(rules, db)
    ensures WellFormed(lib, lines) && Takes(engine, Made(lib, lines, engine, before), Pairs(lib, Middle(lines)))
  {
    PartsOfDump(lib, order, db, header, lines);
    DumpIsAccepted(lib, order, db, header, lines);
    var pairs := Pairs(lib, Middle(lines));
    DumpIsOrderly(rules, order, db, pairs);
    forall p | p in pairs ensures p.0 in Made(lib, lines, engine, before) && p.0 in TABLES && '\n' !in p.1 {
      var i :| 0 <= i < |pairs| && pairs[i] == p;
      IndexOfIsThere(Dumped(db), pairs[i].0);
      DumpedMember(order, db, pairs, p.0, p.1);
    }
    TakesExactly(engine, rules, Made(lib, lines, engine, before), pairs);
  }
}
