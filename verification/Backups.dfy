/** The server's backup: one writer, a reader that checks it line by line, and
    a restorer that loads it by batches. */
module Backups {
  import opened Wrappers
  import opened Seqs

  /** A line of the file, without its end. */
  type Line = s: string | '\n' !in s

  const MAGIC := "GUIVAULT-BACKUP"
  const END := "END"
  const FORMAT := 1
  const BATCH := 500

  const VAULT_TABLES := ["users", "vaults", "vault_members", "items", "item_versions", "attachments", "attachment_chunks"]
  const ACCOUNT_TABLES := ["invitations", "sessions", "user_totp", "user_recovery_codes", "passkeys", "webauthn_challenges"]
  const SEND_TABLES := ["totp_challenges", "user_settings", "sends", "send_chunks", "send_downloads"]
  const OTHER_TABLES := ["emergency_grants", "emergency_vault_keys", "registration_invites", "audit_log", "backup_runs"]

  /** Every table, each after those it refers to. */
  const TABLES := VAULT_TABLES + ACCOUNT_TABLES + SEND_TABLES + OTHER_TABLES

  /** What is in the database and is no data. */
  const NOT_DATA := ["_sqlx_migrations", "guivault_restore_check"]

  datatype Header = Header(format: int, serverVersion: string, schema: int, createdAt: int, tables: seq<string>)
  datatype TableCheck = TableCheck(rows: nat, sha256: string)
  type Trailer = map<string, TableCheck>

  /** The libraries: JSON for the header, the trailer and "this is JSON", and
      the digest. */
  datatype Lib = Lib(
    printHeader: Header -> Line,
    parseHeader: string -> Option<Header>,
    printTrailer: Trailer -> Line,
    parseTrailer: string -> Option<Trailer>,
    isJson: string -> bool,
    sha256: string -> string)

  ghost predicate RoundTrips(lib: Lib) {
    && (forall h :: lib.parseHeader(lib.printHeader(h)) == Some(h))
    && (forall t :: lib.parseTrailer(lib.printTrailer(t)) == Some(t))
  }

  ghost predicate CollisionFree(lib: Lib) {
    forall x, y :: lib.sha256(x) == lib.sha256(y) ==> x == y
  }

  datatype Error =
    | EmptyFile | NotABackup | UnreadableHeader | UnknownFormat
    | AfterTheEnd(n: nat) | MalformedLine(n: nat) | UnreadableEnd(n: nat)
    | UnknownTable(n: nat) | OutOfOrder(n: nat) | NotJson(n: nat)
    | Truncated | EndOfOtherTables | MissingFromEnd(table: string) | RowCount(table: string) | Altered(table: string)
    | NewerSchema | UnknownToRestore(table: string) | TargetNotEmpty | InsertFailed | CheckFailed

  // ---- lines -----------------------------------------------------------------------

  /** What is before and after the first tab. */
  function SplitOnce(s: string): Option<(string, string)> {
    if s == [] then None
    else if s[0] == '\t' then Some(("", s[1..]))
    else
      var r := SplitOnce(s[1..]);
      if r.None? then None else Some(([s[0]] + r.value.0, r.value.1))
  }

  function Tagged(tag: string, body: string): string { tag + "\t" + body }

  lemma {:induction false} SplitTagged(tag: string, body: string)
    requires '\t' !in tag
    ensures SplitOnce(Tagged(tag, body)) == Some((tag, body))
  {
    if tag == [] {
      assert Tagged(tag, body) == ['\t'] + body;
    } else {
      SplitTagged(tag[1..], body);
      assert tag[0] in tag && tag == [tag[0]] + tag[1..];
      assert Tagged(tag, body)[1..] == Tagged(tag[1..], body);
      assert Tagged(tag, body)[0] == tag[0];
    }
  }

  lemma {:induction false} SplitIsTagged(s: string)
    requires SplitOnce(s).Some?
    ensures var (tag, body) := SplitOnce(s).value;
            '\t' !in tag && s == Tagged(tag, body) && ('\n' !in s ==> '\n' !in body)
  {
    if s[0] != '\t' {
      SplitIsTagged(s[1..]);
    }
  }

  lemma {:induction false} NoTab(s: string)
    ensures SplitOnce(s).None? <==> '\t' !in s
  {
    if s != [] && s[0] != '\t' {
      NoTab(s[1..]);
    }
  }

  type Pair = (string, string)

  function TagIs(t: string): Pair -> bool { (p: Pair) => p.0 == t }

  function Body(): Pair -> string { (p: Pair) => p.1 }

  /** The rows of one table, in file order. */
  function RowsIn(pairs: seq<Pair>, t: string): seq<string> { Map(Filter(pairs, TagIs(t)), Body()) }

  /** What is fed to the digest: each row and a line feed. */
  function Digested(rows: seq<string>): string {
    if rows == [] then "" else Digested(rows[..|rows| - 1]) + rows[|rows| - 1] + "\n"
  }

  function Check(lib: Lib, rows: seq<string>): TableCheck { TableCheck(|rows|, lib.sha256(Digested(rows))) }

  /** Rows without line feeds are told apart by what is digested of them. */
  lemma {:induction false} DigestedInjective(a: seq<string>, b: seq<string>)
    requires |a| == |b|
    requires forall i :: 0 <= i < |a| ==> '\n' !in a[i] && '\n' !in b[i]
    requires Digested(a) == Digested(b)
    ensures a == b
  {
    if a != [] {
      var n := |a| - 1;
      SplitAtLastFeed(Digested(a[..n]), a[n], Digested(b[..n]), b[n]);
      EndsWithFeed(a[..n]);
      EndsWithFeed(b[..n]);
      if n > 0 {
        SameTail(Digested(a[..n]), a[n], Digested(b[..n]), b[n]);
      } else {
        assert "" + a[0] == a[0] && "" + b[0] == b[0];
      }
      DigestedInjective(a[..n], b[..n]);
      assert a == a[..n] + [a[n]] && b == b[..n] + [b[n]];
    }
  }

  lemma EndsWithFeed(rows: seq<string>)
    ensures rows == [] ==> Digested(rows) == ""
    ensures rows != [] ==> Digested(rows) != "" && Digested(rows)[|Digested(rows)| - 1] == '\n'
  {}

  lemma SplitAtLastFeed(x: string, a: string, y: string, b: string)
    requires x + a + "\n" == y + b + "\n"
    ensures x + a == y + b
  {
    assert (x + a + "\n")[..|x + a|] == x + a;
    assert (y + b + "\n")[..|y + b|] == y + b;
  }

  /** Two ways to cut one text after a line feed, with none in the tail. */
  lemma SameTail(x: string, a: string, y: string, b: string)
    requires x + a == y + b && '\n' !in a && '\n' !in b
    requires x != "" && y != "" && x[|x| - 1] == '\n' && y[|y| - 1] == '\n'
    ensures x == y && a == b
  {
    var s := x + a;
    assert s[|x| - 1] == '\n' && s[|y| - 1] == '\n';
    assert forall i :: |x| <= i < |s| ==> s[i] == a[i - |x|];
    assert forall i :: |y| <= i < |s| ==> s[i] == b[i - |y|];
    assert |x| == |y|;
    assert x == s[..|x|] && y == s[..|y|];
    assert a == s[|x|..] && b == s[|y|..];
  }

  // ---- the format --------------------------------------------------------------------

  function IndexOf(tables: seq<string>, t: string): Option<nat> {
    if tables == [] then None
    else if tables[0] == t then Some(0)
    else
      var r := IndexOf(tables[1..], t);
      if r.None? then None else Some(r.value + 1)
  }

  /** Every row is of a table of the header, and the tables follow each other
      in the header's order. */
  ghost predicate InHeaderOrder(tables: seq<string>, pairs: seq<Pair>) {
    && (forall i :: 0 <= i < |pairs| ==> IndexOf(tables, pairs[i].0).Some?)
    && (forall i, j :: 0 <= i < j < |pairs| ==>
          IndexOf(tables, pairs[i].0).value <= IndexOf(tables, pairs[j].0).value)
  }

  function HeaderOf(lib: Lib, lines: seq<Line>): Option<Header> {
    if lines == [] then None
    else
      var first := SplitOnce(lines[0]);
      if first.Some? && first.value.0 == MAGIC then lib.parseHeader(first.value.1) else None
  }

  /** The lines between the first and the last. */
  function Middle(lines: seq<Line>): seq<Line>
    requires |lines| >= 2
  {
    lines[1..|lines| - 1]
  }

  predicate IsRow(lib: Lib, line: Line) {
    SplitOnce(line).Some? && SplitOnce(line).value.0 != END && lib.isJson(SplitOnce(line).value.1)
  }

  predicate Rows(lib: Lib, lines: seq<Line>) {
    forall i :: 0 <= i < |lines| ==> IsRow(lib, lines[i])
  }

  function Pairs(lib: Lib, lines: seq<Line>): (pairs: seq<Pair>)
    requires Rows(lib, lines)
    ensures |pairs| == |lines|
    ensures forall i :: 0 <= i < |lines| ==> pairs[i] == SplitOnce(lines[i]).value
  {
    seq(|lines|, i requires 0 <= i < |lines| => SplitOnce(lines[i]).value)
  }

  function TrailerOf(lib: Lib, lines: seq<Line>): Option<Trailer> {
    if lines == [] then None
    else
      var last := SplitOnce(lines[|lines| - 1]);
      if last.Some? && last.value.0 == END then lib.parseTrailer(last.value.1) else None
  }

  ghost predicate Repeated(tables: seq<string>, t: string) {
    exists i, j :: 0 <= i < j < |tables| && tables[i] == t && tables[j] == t
  }

  /** The trailer describes the tables of the header, each with the count and
      the digest of its rows. A name the header repeats must have no row. */
  ghost predicate Describes(lib: Lib, tables: seq<string>, trailer: Trailer, pairs: seq<Pair>) {
    && |trailer| == |tables|
    && (forall i :: 0 <= i < |tables| ==> tables[i] in trailer && trailer[tables[i]] == Check(lib, RowsIn(pairs, tables[i])))
    && (forall i :: 0 <= i < |tables| && Repeated(tables, tables[i]) ==> RowsIn(pairs, tables[i]) == [])
  }

  /** The header, the rows of each table in the header's order, and a last line
      that describes them. */
  ghost predicate WellFormed(lib: Lib, lines: seq<Line>) {
    && |lines| >= 2
    && HeaderOf(lib, lines).Some? && HeaderOf(lib, lines).value.format == FORMAT
    && TrailerOf(lib, lines).Some?
    && Rows(lib, Middle(lines))
    && InHeaderOrder(HeaderOf(lib, lines).value.tables, Pairs(lib, Middle(lines)))
    && Describes(lib, HeaderOf(lib, lines).value.tables, TrailerOf(lib, lines).value, Pairs(lib, Middle(lines)))
  }

  // ---- the reader ----------------------------------------------------------------------

  type Seen = map<string, (nat, string)>

  ghost predicate SeenAt(seen: Seen, pairs: seq<Pair>, t: string) {
    && (t in seen <==> RowsIn(pairs, t) != [])
    && (t in seen ==> seen[t] == (|RowsIn(pairs, t)|, Digested(RowsIn(pairs, t))))
  }

  /** What was counted and digested of each table so far. */
  ghost predicate SeenMatches(seen: Seen, pairs: seq<Pair>) {
    forall t :: SeenAt(seen, pairs, t)
  }

  /** The table being read is that of the last row. */
  ghost predicate Cursor(tables: seq<string>, position: nat, current: Option<string>, pairs: seq<Pair>) {
    if pairs == [] then position == 0 && current == None
    else current == Some(pairs[|pairs| - 1].0) && IndexOf(tables, pairs[|pairs| - 1].0) == Some(position)
  }

  lemma {:induction false} IndexOfIsThere(tables: seq<string>, t: string)
    requires IndexOf(tables, t).Some?
    ensures IndexOf(tables, t).value < |tables| && tables[IndexOf(tables, t).value] == t
  {
    if tables[0] != t {
      IndexOfIsThere(tables[1..], t);
    }
  }

  lemma RowsOfOneMore(pairs: seq<Pair>, p: Pair, t: string)
    ensures RowsIn(pairs + [p], t) == if p.0 == t then RowsIn(pairs, t) + [p.1] else RowsIn(pairs, t)
  {
    FilterConcat(pairs, [p], TagIs(t));
    var f := Filter(pairs, TagIs(t));
    assert Map(f + [p], Body()) == Map(f, Body()) + [p.1];
  }

  lemma DigestedOfOneMore(rows: seq<string>, row: string)
    ensures Digested(rows + [row]) == Digested(rows) + row + "\n"
  {
    assert (rows + [row])[..|rows|] == rows;
  }

  /** One row more, counted and digested. */
  function SeenNext(seen: Seen, p: Pair): Seen {
    var before := if p.0 in seen then seen[p.0] else (0, "");
    seen[p.0 := (before.0 + 1, before.1 + p.1 + "\n")]
  }

  lemma SeenThere(seen: Seen, pairs: seq<Pair>, p: Pair)
    requires SeenAt(seen, pairs, p.0)
    ensures SeenAt(SeenNext(seen, p), pairs + [p], p.0)
  {
    RowsOfOneMore(pairs, p, p.0);
    SeenRows(RowsIn(pairs, p.0), p.1);
  }

  lemma SeenElsewhere(seen: Seen, pairs: seq<Pair>, p: Pair, t: string)
    requires SeenAt(seen, pairs, t) && t != p.0
    ensures SeenAt(SeenNext(seen, p), pairs + [p], t)
  {
    RowsOfOneMore(pairs, p, t);
  }

  lemma SeenOfOneMore(seen: Seen, pairs: seq<Pair>, p: Pair)
    requires SeenMatches(seen, pairs)
    ensures SeenMatches(SeenNext(seen, p), pairs + [p])
  {
    forall t ensures SeenAt(SeenNext(seen, p), pairs + [p], t) {
      if t == p.0 {
        SeenThere(seen, pairs, p);
      } else {
        SeenElsewhere(seen, pairs, p, t);
      }
    }
  }

  lemma SeenRows(rows: seq<string>, row: string)
    ensures |rows + [row]| == |rows| + 1 && Digested(rows + [row]) == Digested(rows) + row + "\n"
    ensures rows == [] ==> Digested(rows) == ""
  {
    DigestedOfOneMore(rows, row);
  }

  lemma AllBefore(tables: seq<string>, position: nat, current: Option<string>, pairs: seq<Pair>)
    requires InHeaderOrder(tables, pairs) && Cursor(tables, position, current, pairs)
    ensures forall i :: 0 <= i < |pairs| ==> IndexOf(tables, pairs[i].0).value <= position
  {
    forall i | 0 <= i < |pairs| ensures IndexOf(tables, pairs[i].0).value <= position {
      var last := |pairs| - 1;
      assert i < last ==> IndexOf(tables, pairs[i].0).value <= IndexOf(tables, pairs[last].0).value;
    }
  }

  lemma AppendInOrder(tables: seq<string>, position: nat, current: Option<string>, pairs: seq<Pair>, p: Pair)
    requires InHeaderOrder(tables, pairs) && Cursor(tables, position, current, pairs)
    ensures InHeaderOrder(tables, pairs + [p]) <==> IndexOf(tables, p.0).Some? && IndexOf(tables, p.0).value >= position
  {
    var all := pairs + [p];
    AllBefore(tables, position, current, pairs);
    if InHeaderOrder(tables, all) {
      assert all[|pairs|] == p;
      assert pairs != [] ==> all[|pairs| - 1] == pairs[|pairs| - 1];
    }
  }

  /** A row belongs next exactly when it goes on with the current table, or
      opens one further down the header that was not seen. */
  lemma NextInOrder(tables: seq<string>, position: nat, current: Option<string>, seen: Seen, pairs: seq<Pair>, p: Pair)
    requires InHeaderOrder(tables, pairs) && Cursor(tables, position, current, pairs) && SeenMatches(seen, pairs)
    ensures InHeaderOrder(tables, pairs + [p]) <==>
            || current == Some(p.0)
            || (IndexOf(tables, p.0).Some? && IndexOf(tables, p.0).value >= position && p.0 !in seen)
  {
    AppendInOrder(tables, position, current, pairs, p);
    AllBefore(tables, position, current, pairs);
    if p.0 in seen {
      assert SeenAt(seen, pairs, p.0);
      SeenHasRow(pairs, p.0);
      var k :| 0 <= k < |pairs| && pairs[k].0 == p.0;
      assert IndexOf(tables, pairs[k].0).value <= position;
      IndexOfIsThere(tables, p.0);
      IndexOfIsThere(tables, pairs[|pairs| - 1].0);
    }
  }

  lemma SeenHasRow(pairs: seq<Pair>, t: string)
    requires RowsIn(pairs, t) != []
    ensures exists k :: 0 <= k < |pairs| && pairs[k].0 == t
  {
    var f := Filter(pairs, TagIs(t));
    assert f[0] in pairs;
  }

  /** Where a line stops the file from being well formed. */
  lemma BadLine(lib: Lib, lines: seq<Line>, i: nat)
    requires 0 < i < |lines| && !IsRow(lib, lines[i])
    requires i < |lines| - 1 || TrailerOf(lib, lines).None?
    ensures !WellFormed(lib, lines)
  {
    if |lines| >= 2 && i < |lines| - 1 {
      assert Middle(lines)[i - 1] == lines[i];
    }
  }

  lemma OrderSoFar(lib: Lib, lines: seq<Line>, i: nat)
    requires WellFormed(lib, lines) && 0 < i < |lines| - 1 && Rows(lib, lines[1..i + 1])
    ensures InHeaderOrder(HeaderOf(lib, lines).value.tables, Pairs(lib, lines[1..i + 1]))
  {
    var all, some := Pairs(lib, Middle(lines)), Pairs(lib, lines[1..i + 1]);
    assert forall k :: 0 <= k < |some| ==> lines[1..i + 1][k] == Middle(lines)[k] && some[k] == all[k];
  }

  lemma BadOrder(lib: Lib, lines: seq<Line>, i: nat)
    requires 0 < i < |lines| && Rows(lib, lines[1..i + 1])
    requires HeaderOf(lib, lines).Some? && !InHeaderOrder(HeaderOf(lib, lines).value.tables, Pairs(lib, lines[1..i + 1]))
    ensures !WellFormed(lib, lines)
  {
    assert lines[1..i + 1][i - 1] == lines[i];
    if WellFormed(lib, lines) && i < |lines| - 1 {
      OrderSoFar(lib, lines, i);
    }
  }

  lemma RowsOfOneMoreLine(lib: Lib, lines: seq<Line>, i: nat)
    requires 0 < i < |lines| && Rows(lib, lines[1..i]) && IsRow(lib, lines[i])
    ensures Rows(lib, lines[1..i + 1])
    ensures Pairs(lib, lines[1..i + 1]) == Pairs(lib, lines[1..i]) + [SplitOnce(lines[i]).value]
  {
    assert lines[1..i + 1] == lines[1..i] + [lines[i]];
  }

  lemma CursorMoves(tables: seq<string>, position: nat, current: Option<string>, pairs: seq<Pair>, p: Pair)
    requires Cursor(tables, position, current, pairs)
    ensures current == Some(p.0) ==> Cursor(tables, position, current, pairs + [p])
    ensures IndexOf(tables, p.0).Some? ==> Cursor(tables, IndexOf(tables, p.0).value, Some(p.0), pairs + [p])
  {}

  /** The table of a row in its place: that of the row before, or a later one
      not seen yet. */
  method Place(tables: seq<string>, n: nat, table: string, ghost json: string, position: nat, current: Option<string>,
               seen: Seen, ghost pairs: seq<Pair>)
    returns (r: Result<(nat, Option<string>), Error>)
    requires InHeaderOrder(tables, pairs) && Cursor(tables, position, current, pairs) && SeenMatches(seen, pairs)
    ensures r.Ok? <==> InHeaderOrder(tables, pairs + [(table, json)])
    ensures r.Ok? ==> Cursor(tables, r.value.0, r.value.1, pairs + [(table, json)])
    ensures r.Err? ==> r.error == if IndexOf(tables, table).None? then UnknownTable(n) else OutOfOrder(n)
  {
    assert InHeaderOrder(tables, pairs + [(table, json)]) <==>
           current == Some(table)
           || (IndexOf(tables, table).Some? && IndexOf(tables, table).value >= position && table !in seen) by {
      NextInOrder(tables, position, current, seen, pairs, (table, json));
    }
    CursorMoves(tables, position, current, pairs, (table, json));
    if current != Some(table) {
      var index := IndexOf(tables, table);
      if index.None? {
        return Err(UnknownTable(n));
      }
      if index.value < position || table in seen {
        return Err(OutOfOrder(n));
      }
      return Ok((index.value, Some(table)));
    }
    return Ok((position, current));
  }

  /** One row: its table in its place, and a body that is JSON. */
  method ReadRow(lib: Lib, tables: seq<string>, n: nat, table: string, json: string, position: nat, current: Option<string>,
                 seen: Seen, ghost pairs: seq<Pair>)
    returns (r: Result<(nat, Option<string>, Seen), Error>)
    requires InHeaderOrder(tables, pairs) && Cursor(tables, position, current, pairs) && SeenMatches(seen, pairs)
    ensures r.Ok? <==> lib.isJson(json) && InHeaderOrder(tables, pairs + [(table, json)])
    ensures r.Ok? ==> Cursor(tables, r.value.0, r.value.1, pairs + [(table, json)])
                      && SeenMatches(r.value.2, pairs + [(table, json)])
    ensures r.Err? ==> r.error == if IndexOf(tables, table).None? then UnknownTable(n)
                                  else if !InHeaderOrder(tables, pairs + [(table, json)]) then OutOfOrder(n)
                                  else NotJson(n)
  {
    var place := Place(tables, n, table, json, position, current, seen, pairs);
    if place.Err? {
      return Err(place.error);
    }
    if !lib.isJson(json) {
      return Err(NotJson(n));
    }
    SeenOfOneMore(seen, pairs, (table, json));
    return Ok((place.value.0, place.value.1, SeenNext(seen, (table, json))));
  }

  /** The lines 1 .. i-1 read so far: rows, and the last one perhaps the end. */
  ghost predicate ReadSoFar(lib: Lib, lines: seq<Line>, i: nat, trailer: Option<Trailer>, pairs: seq<Pair>)
    requires 1 <= i <= |lines|
  {
    if trailer.None? then Rows(lib, lines[1..i]) && pairs == Pairs(lib, lines[1..i])
    else i >= 2 && Rows(lib, lines[1..i - 1]) && pairs == Pairs(lib, lines[1..i - 1]) && IsEnd(lib, lines[i - 1], trailer.value)
  }

  ghost predicate IsEnd(lib: Lib, line: Line, trailer: Trailer) {
    SplitOnce(line).Some? && SplitOnce(line).value.0 == END && lib.parseTrailer(SplitOnce(line).value.1) == Some(trailer)
  }

  lemma BadRow(lib: Lib, lines: seq<Line>, i: nat, header: Header, pairs: seq<Pair>)
    requires 0 < i < |lines| && HeaderOf(lib, lines) == Some(header)
    requires Rows(lib, lines[1..i]) && pairs == Pairs(lib, lines[1..i])
    requires SplitOnce(lines[i]).Some? && SplitOnce(lines[i]).value.0 != END
    requires !lib.isJson(SplitOnce(lines[i]).value.1) || !InHeaderOrder(header.tables, pairs + [SplitOnce(lines[i]).value])
    ensures !WellFormed(lib, lines)
  {
    if IsRow(lib, lines[i]) {
      RowsOfOneMoreLine(lib, lines, i);
      BadOrder(lib, lines, i);
    } else {
      BadLine(lib, lines, i);
    }
  }

  lemma ReadOneMore(lib: Lib, lines: seq<Line>, i: nat, pairs: seq<Pair>)
    requires 0 < i < |lines| && ReadSoFar(lib, lines, i, None, pairs) && IsRow(lib, lines[i])
    ensures ReadSoFar(lib, lines, i + 1, None, pairs + [SplitOnce(lines[i]).value])
  {
    RowsOfOneMoreLine(lib, lines, i);
  }

  /** What each refusal says of the line it names, counted from 1: rows come
      after the header, and the end comes last. */
  ghost predicate BlamesLine(lib: Lib, lines: seq<Line>, tables: seq<string>, e: Error) {
    match e
    case AfterTheEnd(n) => 3 <= n <= |lines| && IsTagged(lines[n - 2], "END")
    case MalformedLine(n) => 2 <= n <= |lines| && '\t' !in lines[n - 1]
    case UnreadableEnd(n) =>
      2 <= n <= |lines| && IsTagged(lines[n - 1], "END") && lib.parseTrailer(SplitOnce(lines[n - 1]).value.1).None?
    case UnknownTable(n) => 2 <= n <= |lines| && SplitOnce(lines[n - 1]).Some? && SplitOnce(lines[n - 1]).value.0 !in tables
    case OutOfOrder(n) => 2 <= n <= |lines| && Late(lines, tables, n - 1)
    case NotJson(n) => 2 <= n <= |lines| && SplitOnce(lines[n - 1]).Some? && !lib.isJson(SplitOnce(lines[n - 1]).value.1)
    case Truncated => forall i :: 0 < i < |lines| ==> !IsTagged(lines[i], "END")
    case _ => false
  }

  predicate IsTagged(line: Line, tag: string) { SplitOnce(line).Some? && SplitOnce(line).value.0 == tag }

  /** A row above is of a table that comes later in the header. */
  ghost predicate Late(lines: seq<Line>, tables: seq<string>, i: nat)
    requires i < |lines|
  {
    && SplitOnce(lines[i]).Some? && IndexOf(tables, SplitOnce(lines[i]).value.0).Some?
    && exists k :: 0 < k < i && SplitOnce(lines[k]).Some? && IndexOf(tables, SplitOnce(lines[k]).value.0).Some?
                   && IndexOf(tables, SplitOnce(lines[k]).value.0).value > IndexOf(tables, SplitOnce(lines[i]).value.0).value
  }

  lemma RowIsLate(lib: Lib, lines: seq<Line>, i: nat, tables: seq<string>, pairs: seq<Pair>, p: Pair)
    requires 0 < i < |lines| && Rows(lib, lines[1..i]) && pairs == Pairs(lib, lines[1..i])
    requires SplitOnce(lines[i]) == Some(p) && InHeaderOrder(tables, pairs)
    ensures IndexOf(tables, p.0).None? <==> p.0 !in tables
    ensures IndexOf(tables, p.0).Some? && !InHeaderOrder(tables, pairs + [p]) ==> Late(lines, tables, i)
  {
    IndexOfExactly(tables, p.0);
    if IndexOf(tables, p.0).Some? && !InHeaderOrder(tables, pairs + [p]) {
      var all := pairs + [p];
      assert forall k :: 0 <= k < |pairs| ==> all[k] == pairs[k];
      var k :| 0 <= k < |pairs| && IndexOf(tables, pairs[k].0).value > IndexOf(tables, p.0).value;
      assert lines[1..i][k] == lines[k + 1];
    }
  }

  lemma RowRefused(lib: Lib, lines: seq<Line>, i: nat, header: Header, pairs: seq<Pair>, e: Error)
    requires 0 < i < |lines| && HeaderOf(lib, lines) == Some(header)
    requires Rows(lib, lines[1..i]) && pairs == Pairs(lib, lines[1..i]) && InHeaderOrder(header.tables, pairs)
    requires SplitOnce(lines[i]).Some? && SplitOnce(lines[i]).value.0 != END
    requires var p := SplitOnce(lines[i]).value;
             && (!lib.isJson(p.1) || !InHeaderOrder(header.tables, pairs + [p]))
             && e == if IndexOf(header.tables, p.0).None? then UnknownTable(i + 1)
                     else if !InHeaderOrder(header.tables, pairs + [p]) then OutOfOrder(i + 1)
                     else NotJson(i + 1)
    ensures !WellFormed(lib, lines) && BlamesLine(lib, lines, header.tables, e)
  {
    BadRow(lib, lines, i, header, pairs);
    RowIsLate(lib, lines, i, header.tables, pairs, SplitOnce(lines[i]).value);
  }

  ghost predicate BeforeEnd(lines: seq<Line>, i: nat)
    requires i <= |lines|
  {
    forall k :: 0 < k < i ==> !IsTagged(lines[k], "END")
  }

  /** Nothing comes after the end. */
  lemma AfterEnd(lib: Lib, lines: seq<Line>, i: nat, tables: seq<string>, trailer: Trailer, pairs: seq<Pair>)
    requires 1 <= i < |lines| && ReadSoFar(lib, lines, i, Some(trailer), pairs)
    ensures !WellFormed(lib, lines) && BlamesLine(lib, lines, tables, AfterTheEnd(i + 1))
  {
    BadLine(lib, lines, i - 1);
  }

  lemma BadEnd(lib: Lib, lines: seq<Line>, i: nat, tables: seq<string>)
    requires 0 < i < |lines|
    requires SplitOnce(lines[i]).None?
             || (SplitOnce(lines[i]).value.0 == END && lib.parseTrailer(SplitOnce(lines[i]).value.1).None?)
    ensures !WellFormed(lib, lines)
    ensures BlamesLine(lib, lines, tables, if SplitOnce(lines[i]).None? then MalformedLine(i + 1) else UnreadableEnd(i + 1))
  {
    BadLine(lib, lines, i);
    NoTab(lines[i]);
  }

  lemma {:induction false} IndexOfExactly(tables: seq<string>, t: string)
    ensures IndexOf(tables, t).Some? <==> t in tables
  {
    if tables != [] && tables[0] != t {
      IndexOfExactly(tables[1..], t);
    }
  }

  /** The row of line `i`, after those read so far. */
  method ReadRowAt(lib: Lib, lines: seq<Line>, i: nat, header: Header, position: nat, current: Option<string>, seen: Seen,
                   ghost pairs: seq<Pair>)
    returns (r: Result<(nat, Option<string>, Seen), Error>)
    requires 0 < i < |lines| && HeaderOf(lib, lines) == Some(header) && ReadSoFar(lib, lines, i, None, pairs)
    requires SplitOnce(lines[i]).Some? && SplitOnce(lines[i]).value.0 != END
    requires InHeaderOrder(header.tables, pairs) && Cursor(header.tables, position, current, pairs) && SeenMatches(seen, pairs)
    ensures r.Err? ==> !WellFormed(lib, lines) && BlamesLine(lib, lines, header.tables, r.error)
    ensures r.Ok? ==> var pairs' := pairs + [SplitOnce(lines[i]).value];
                      && ReadSoFar(lib, lines, i + 1, None, pairs')
                      && InHeaderOrder(header.tables, pairs') && Cursor(header.tables, r.value.0, r.value.1, pairs')
                      && SeenMatches(r.value.2, pairs')
  {
    var (table, json) := SplitOnce(lines[i]).value;
    r := ReadRow(lib, header.tables, i + 1, table, json, position, current, seen, pairs);
    if r.Err? {
      RowRefused(lib, lines, i, header, pairs, r.error);
    } else {
      ReadOneMore(lib, lines, i, pairs);
    }
  }

  lemma ReadToEnd(lib: Lib, lines: seq<Line>, pairs: seq<Pair>, trailer: Trailer)
    requires lines != [] && ReadSoFar(lib, lines, |lines|, Some(trailer), pairs)
    ensures |lines| >= 2 && Rows(lib, Middle(lines)) && pairs == Pairs(lib, Middle(lines)) && TrailerOf(lib, lines) == Some(trailer)
  {}

  /** The end, where line `i` starts it. */
  method ReadEnd(lib: Lib, lines: seq<Line>, i: nat, ghost tables: seq<string>, ghost pairs: seq<Pair>)
    returns (r: Result<Trailer, Error>)
    requires 0 < i < |lines| && ReadSoFar(lib, lines, i, None, pairs)
    requires SplitOnce(lines[i]).Some? && SplitOnce(lines[i]).value.0 == END
    ensures r.Err? ==> !WellFormed(lib, lines) && BlamesLine(lib, lines, tables, r.error)
    ensures r.Ok? ==> ReadSoFar(lib, lines, i + 1, Some(r.value), pairs)
  {
    var trailer := lib.parseTrailer(SplitOnce(lines[i]).value.1);
    if trailer.None? {
      BadEnd(lib, lines, i, tables);
      return Err(UnreadableEnd(i + 1));
    }
    return Ok(trailer.value);
  }

  lemma NoEndYet(lines: seq<Line>, i: nat)
    requires 0 < i < |lines| && BeforeEnd(lines, i) && !IsTagged(lines[i], "END")
    ensures BeforeEnd(lines, i + 1)
  {}

  lemma NeverEnds(lib: Lib, lines: seq<Line>, tables: seq<string>, pairs: seq<Pair>)
    requires lines != [] && ReadSoFar(lib, lines, |lines|, None, pairs) && BeforeEnd(lines, |lines|)
    ensures !WellFormed(lib, lines) && BlamesLine(lib, lines, tables, Truncated)
  {
    NoTrailer(lib, lines);
  }

  /** Everything after the header, down to the end. */
  method ReadLines(lib: Lib, lines: seq<Line>, header: Header) returns (r: Result<(Seen, Trailer), Error>, ghost pairs: seq<Pair>)
    requires lines != [] && HeaderOf(lib, lines) == Some(header)
    ensures r.Err? ==> !WellFormed(lib, lines) && BlamesLine(lib, lines, header.tables, r.error)
    ensures r.Ok? ==>
              && |lines| >= 2 && Rows(lib, Middle(lines)) && pairs == Pairs(lib, Middle(lines))
              && TrailerOf(lib, lines) == Some(r.value.1)
              && InHeaderOrder(header.tables, pairs) && SeenMatches(r.value.0, pairs)
  {
    var seen: Seen, position: nat, current: Option<string>, trailer: Option<Trailer> := map[], 0, None, None;
    pairs := [];
    for i := 1 to |lines|
      invariant ReadSoFar(lib, lines, i, trailer, pairs)
      invariant trailer.None? ==> BeforeEnd(lines, i)
      invariant InHeaderOrder(header.tables, pairs)
      invariant SeenMatches(seen, pairs)
      invariant Cursor(header.tables, position, current, pairs)
    {
      if trailer.Some? {
        AfterEnd(lib, lines, i, header.tables, trailer.value, pairs);
        return Err(AfterTheEnd(i + 1)), pairs;
      }
      var split := SplitOnce(lines[i]);
      if split.None? {
        BadEnd(lib, lines, i, header.tables);
        return Err(MalformedLine(i + 1)), pairs;
      }
      var (table, json) := split.value;
      if table == END {
        var end := ReadEnd(lib, lines, i, header.tables, pairs);
        if end.Err? {
          return Err(end.error), pairs;
        }
        trailer := Some(end.value);
        continue;
      }
      var row := ReadRowAt(lib, lines, i, header, position, current, seen, pairs);
      if row.Err? {
        return Err(row.error), pairs;
      }
      NoEndYet(lines, i);
      position, current, seen := row.value.0, row.value.1, row.value.2;
      pairs := pairs + [(table, json)];
    }
    if trailer.None? {
      NeverEnds(lib, lines, header.tables, pairs);
      return Err(Truncated), pairs;
    }
    ReadToEnd(lib, lines, pairs, trailer.value);
    return Ok((seen, trailer.value)), pairs;
  }

  /** What each refusal of a file says of it: of its header, of a line, or of
      the end against the rows read. */
  ghost predicate Blames(lib: Lib, lines: seq<Line>, e: Error) {
    match e
    case EmptyFile => lines == []
    case NotABackup => lines != [] && !IsTagged(lines[0], "GUIVAULT-BACKUP")
    case UnreadableHeader => lines != [] && IsTagged(lines[0], "GUIVAULT-BACKUP") && HeaderOf(lib, lines).None?
    case UnknownFormat => HeaderOf(lib, lines).Some? && HeaderOf(lib, lines).value.format != 1
    case _ =>
      && HeaderOf(lib, lines).Some?
      && (BlamesLine(lib, lines, HeaderOf(lib, lines).value.tables, e)
          || (|lines| >= 2 && Rows(lib, Middle(lines)) && TrailerOf(lib, lines).Some?
              && BlamesEnd(lib, HeaderOf(lib, lines).value.tables, TrailerOf(lib, lines).value, Pairs(lib, Middle(lines)), e)))
  }

  /** A name the header repeats is compared a second time, with no row. */
  ghost predicate BlamesEnd(lib: Lib, tables: seq<string>, trailer: Trailer, pairs: seq<Pair>, e: Error) {
    match e
    case EndOfOtherTables => |trailer| != |tables|
    case MissingFromEnd(t) => t in tables && t !in trailer
    case RowCount(t) =>
      t in tables && t in trailer && (trailer[t].rows != |RowsIn(pairs, t)| || (Repeated(tables, t) && trailer[t].rows != 0))
    case Altered(t) =>
      t in tables && t in trailer && (trailer[t].sha256 != lib.sha256(Digested(RowsIn(pairs, t)))
                                      || (Repeated(tables, t) && trailer[t].sha256 != lib.sha256("")))
    case _ => false
  }

  /** Reads the whole file, and accepts it exactly when it is well formed. */
  method VerifyFile(lib: Lib, lines: seq<Line>) returns (r: Result<(Header, Trailer), Error>)
    ensures r.Ok? <==> WellFormed(lib, lines)
    ensures r.Ok? ==> r.value == (HeaderOf(lib, lines).value, TrailerOf(lib, lines).value)
    ensures r.Err? ==> Blames(lib, lines, r.error)
  {
    if lines == [] {
      return Err(EmptyFile);
    }
    var first := SplitOnce(lines[0]);
    if first.None? || first.value.0 != MAGIC {
      return Err(NotABackup);
    }
    var header := lib.parseHeader(first.value.1);
    if header.None? {
      return Err(UnreadableHeader);
    }
    if header.value.format != FORMAT {
      return Err(UnknownFormat);
    }
    var read;
    ghost var pairs;
    read, pairs := ReadLines(lib, lines, header.value);
    if read.Err? {
      return Err(read.error);
    }
    var bad := CompareEnd(lib, header.value.tables, read.value.1, read.value.0, pairs);
    if bad.Some? {
      return Err(bad.value);
    }
    return Ok((header.value, read.value.1));
  }

  lemma NoTrailer(lib: Lib, lines: seq<Line>)
    requires lines != [] && Rows(lib, lines[1..])
    ensures !WellFormed(lib, lines)
  {
    if |lines| >= 2 {
      assert lines[1..][|lines| - 2] == lines[|lines| - 1];
    }
  }

  /** The tables not compared yet, after the first `k` of the header. */
  ghost predicate Left(left: Seen, seen: Seen, tables: seq<string>, k: nat)
    requires k <= |tables|
  {
    && (forall t :: t in left <==> t in seen && t !in tables[..k])
    && (forall t :: t in left ==> left[t] == seen[t])
  }

  lemma LeftNext(left: Seen, seen: Seen, tables: seq<string>, k: nat)
    requires k < |tables| && Left(left, seen, tables, k)
    ensures Left(left - {tables[k]}, seen, tables, k + 1)
  {
    TakeOneMore(tables, k);
  }

  /** The k-th table of the header, `left` holding the tables not compared yet. */
  method CompareTable(lib: Lib, tables: seq<string>, trailer: Trailer, left: Seen, ghost seen: Seen, ghost pairs: seq<Pair>, k: nat)
    returns (e: Option<Error>)
    requires SeenMatches(seen, pairs) && k < |tables|
    requires Left(left, seen, tables, k)
    ensures e.None? <==> EntryAgrees(lib, tables, trailer, pairs, k)
    ensures e.Some? ==> !Describes(lib, tables, trailer, pairs) && BlamesEnd(lib, tables, trailer, pairs, e.value)
  {
    var t := tables[k];
    if t !in trailer {
      return Some(MissingFromEnd(t));
    }
    var (rows, text) := if t in left then left[t] else (0, "");
    assert SeenAt(seen, pairs, t);
    assert TableCheck(rows, lib.sha256(text)) == Compared(lib, tables, pairs, k);
    if trailer[t] != Compared(lib, tables, pairs, k) {
      NotDescribed(lib, tables, trailer, pairs, k);
    }
    assert t in tables[..k] ==> Repeated(tables, t);
    if rows != trailer[t].rows {
      return Some(RowCount(t));
    }
    if lib.sha256(text) != trailer[t].sha256 {
      return Some(Altered(t));
    }
    return None;
  }

  /** The announced counts and digests against those found, each table taken
      out once compared. */
  method CompareEnd(lib: Lib, tables: seq<string>, trailer: Trailer, seen: Seen, ghost pairs: seq<Pair>)
    returns (e: Option<Error>)
    requires SeenMatches(seen, pairs)
    ensures e.None? <==> Describes(lib, tables, trailer, pairs)
    ensures e.Some? ==> BlamesEnd(lib, tables, trailer, pairs, e.value)
  {
    if |trailer| != |tables| {
      return Some(EndOfOtherTables);
    }
    var left := seen;
    for k := 0 to |tables|
      invariant Left(left, seen, tables, k)
      invariant forall j :: 0 <= j < k ==> EntryAgrees(lib, tables, trailer, pairs, j)
    {
      var t := tables[k];
      e := CompareTable(lib, tables, trailer, left, seen, pairs, k);
      if e.Some? {
        return;
      }
      LeftNext(left, seen, tables, k);
      left := left - {t};
    }
    AllCompared(lib, tables, trailer, pairs);
    return None;
  }

  /** What the entry of the k-th table is compared with: nothing is left of a
      name met before. */
  function Compared(lib: Lib, tables: seq<string>, pairs: seq<Pair>, k: nat): TableCheck
    requires k < |tables|
  {
    if tables[k] in tables[..k] then Check(lib, []) else Check(lib, RowsIn(pairs, tables[k]))
  }

  predicate EntryAgrees(lib: Lib, tables: seq<string>, trailer: Trailer, pairs: seq<Pair>, k: nat)
    requires k < |tables|
  {
    tables[k] in trailer && trailer[tables[k]] == Compared(lib, tables, pairs, k)
  }

  lemma NotDescribed(lib: Lib, tables: seq<string>, trailer: Trailer, pairs: seq<Pair>, k: nat)
    requires k < |tables| && tables[k] in trailer && trailer[tables[k]] != Compared(lib, tables, pairs, k)
    ensures !Describes(lib, tables, trailer, pairs)
  {
    if tables[k] in tables[..k] {
      var i :| 0 <= i < k && tables[i] == tables[k];
      assert Repeated(tables, tables[k]);
    }
  }

  lemma {:induction false} FirstOccurrence(tables: seq<string>, t: string) returns (k: nat)
    requires t in tables
    ensures k < |tables| && tables[k] == t && t !in tables[..k]
  {
    if tables[0] == t {
      k := 0;
    } else {
      k := FirstOccurrence(tables[1..], t);
      assert tables[1..][..k] == tables[1..k + 1] && tables[..k + 1] == [tables[0]] + tables[1..k + 1];
      k := k + 1;
    }
  }

  lemma AllCompared(lib: Lib, tables: seq<string>, trailer: Trailer, pairs: seq<Pair>)
    requires |trailer| == |tables|
    requires forall j :: 0 <= j < |tables| ==> EntryAgrees(lib, tables, trailer, pairs, j)
    ensures Describes(lib, tables, trailer, pairs)
  {
    forall i | 0 <= i < |tables|
      ensures tables[i] in trailer && trailer[tables[i]] == Check(lib, RowsIn(pairs, tables[i]))
      ensures Repeated(tables, tables[i]) ==> RowsIn(pairs, tables[i]) == []
    {
      var k := FirstOccurrence(tables, tables[i]);
      assert EntryAgrees(lib, tables, trailer, pairs, k);
      if Repeated(tables, tables[i]) {
        var a, b :| 0 <= a < b < |tables| && tables[a] == tables[i] && tables[b] == tables[i];
        assert tables[a] in tables[..b] by { assert tables[..b][a] == tables[a]; }
        assert EntryAgrees(lib, tables, trailer, pairs, b);
      }
    }
  }

  // ---- the format in full ------------------------------------------------------------------

  /** The first place of a name in the header. */
  predicate FirstAt(tables: seq<string>, a: nat, t: string) { a < |tables| && tables[a] == t && t !in tables[..a] }

  lemma {:induction false} IndexOfFirst(tables: seq<string>, a: nat, t: string)
    ensures IndexOf(tables, t) == Some(a) <==> FirstAt(tables, a, t)
  {
    if tables != [] && tables[0] != t && a > 0 {
      IndexOfFirst(tables[1..], a - 1, t);
      if a < |tables| {
        assert tables[..a] == [tables[0]] + tables[1..][..a - 1];
      }
    } else if a > 0 && tables != [] && a < |tables| {
      assert tables[..a][0] == t;
    }
  }

  ghost predicate InPlace(tables: seq<string>, t: string, u: string) {
    exists a, b :: FirstAt(tables, a, t) && FirstAt(tables, b, u) && a <= b
  }

  lemma OrderInFull(tables: seq<string>, pairs: seq<Pair>)
    ensures InHeaderOrder(tables, pairs) <==>
            (forall i :: 0 <= i < |pairs| ==> pairs[i].0 in tables)
            && forall i, j :: 0 <= i < j < |pairs| ==> InPlace(tables, pairs[i].0, pairs[j].0)
  {
    forall t ensures IndexOf(tables, t).Some? <==> t in tables {
      IndexOfExactly(tables, t);
    }
    forall t, u | t in tables && u in tables
      ensures InPlace(tables, t, u) <==> IndexOf(tables, t).value <= IndexOf(tables, u).value
    {
      PlacesCompare(tables, t, u);
    }
  }

  lemma PlacesCompare(tables: seq<string>, t: string, u: string)
    requires IndexOf(tables, t).Some? && IndexOf(tables, u).Some?
    ensures InPlace(tables, t, u) <==> IndexOf(tables, t).value <= IndexOf(tables, u).value
  {
    IndexOfFirst(tables, IndexOf(tables, t).value, t);
    IndexOfFirst(tables, IndexOf(tables, u).value, u);
    forall a, b | FirstAt(tables, a, t) && FirstAt(tables, b, u)
      ensures a == IndexOf(tables, t).value && b == IndexOf(tables, u).value
    {
      IndexOfFirst(tables, a, t);
      IndexOfFirst(tables, b, u);
    }
  }

  /** The header under the magic word, in the first format; the rows, each under
      its table, which is neither empty of sense nor `END`, in the order of the
      header; and the end, which counts and digests the rows of each table. */
  ghost predicate FileOf(lib: Lib, lines: seq<Line>, header: Header, trailer: Trailer, pairs: seq<Pair>) {
    && |lines| == |pairs| + 2
    && (exists text :: lines[0] == "GUIVAULT-BACKUP" + "\t" + text && lib.parseHeader(text) == Some(header)) && header.format == 1
    && RowsAsWritten(lib, lines, pairs)
    && (forall i :: 0 <= i < |pairs| ==> pairs[i].0 in header.tables)
    && (forall i, j :: 0 <= i < j < |pairs| ==> InPlace(header.tables, pairs[i].0, pairs[j].0))
    && (exists text :: lines[|lines| - 1] == "END" + "\t" + text && lib.parseTrailer(text) == Some(trailer))
    && |trailer| == |header.tables|
    && (forall t :: t in header.tables ==>
          && t in trailer && trailer[t].rows == |RowsIn(pairs, t)| && trailer[t].sha256 == lib.sha256(Digested(RowsIn(pairs, t)))
          && (Repeated(header.tables, t) ==> RowsIn(pairs, t) == []))
  }

  lemma HeaderInFull(lib: Lib, lines: seq<Line>, header: Header)
    requires lines != []
    ensures HeaderOf(lib, lines) == Some(header) <==>
            exists text :: lines[0] == "GUIVAULT-BACKUP" + "\t" + text && lib.parseHeader(text) == Some(header)
  {
    if HeaderOf(lib, lines) == Some(header) {
      SplitIsTagged(lines[0]);
      assert lines[0] == "GUIVAULT-BACKUP" + "\t" + SplitOnce(lines[0]).value.1;
    }
    forall text | lines[0] == "GUIVAULT-BACKUP" + "\t" + text ensures SplitOnce(lines[0]) == Some(("GUIVAULT-BACKUP", text)) {
      SplitTagged("GUIVAULT-BACKUP", text);
    }
  }

  lemma EndInFull(lib: Lib, lines: seq<Line>, trailer: Trailer)
    requires lines != []
    ensures TrailerOf(lib, lines) == Some(trailer) <==>
            exists text :: lines[|lines| - 1] == "END" + "\t" + text && lib.parseTrailer(text) == Some(trailer)
  {
    var last := lines[|lines| - 1];
    if TrailerOf(lib, lines) == Some(trailer) {
      SplitIsTagged(last);
      assert last == "END" + "\t" + SplitOnce(last).value.1;
    }
    forall text | last == "END" + "\t" + text ensures SplitOnce(last) == Some(("END", text)) {
      SplitTagged("END", text);
    }
  }

  predicate RowAsWritten(lib: Lib, line: Line, p: Pair) {
    line == p.0 + "\t" + p.1 && '\t' !in p.0 && p.0 != "END" && lib.isJson(p.1)
  }

  lemma RowInFull(lib: Lib, line: Line, p: Pair)
    ensures (IsRow(lib, line) && SplitOnce(line) == Some(p)) <==> RowAsWritten(lib, line, p)
  {
    if IsRow(lib, line) && SplitOnce(line) == Some(p) {
      SplitIsTagged(line);
    }
    if line == p.0 + "\t" + p.1 && '\t' !in p.0 {
      SplitTagged(p.0, p.1);
    }
  }

  ghost predicate RowsAsWritten(lib: Lib, lines: seq<Line>, pairs: seq<Pair>)
    requires |lines| == |pairs| + 2
  {
    forall i :: 0 <= i < |pairs| ==> RowAsWritten(lib, lines[i + 1], pairs[i])
  }

  lemma RowsInFull(lib: Lib, lines: seq<Line>, pairs: seq<Pair>)
    requires |lines| == |pairs| + 2
    ensures (Rows(lib, Middle(lines)) && pairs == Pairs(lib, Middle(lines))) <==> RowsAsWritten(lib, lines, pairs)
  {
    forall i | 0 <= i < |pairs|
      ensures Middle(lines)[i] == lines[i + 1]
      ensures (IsRow(lib, Middle(lines)[i]) && SplitOnce(Middle(lines)[i]) == Some(pairs[i])) <==> RowAsWritten(lib, lines[i + 1], pairs[i])
    {
      RowInFull(lib, lines[i + 1], pairs[i]);
    }
    if RowsAsWritten(lib, lines, pairs) {
      assert pairs == Pairs(lib, Middle(lines));
    }
  }

  /** The files accepted are exactly those of that form. */
  lemma FormatInFull(lib: Lib, lines: seq<Line>)
    ensures WellFormed(lib, lines) <==> exists header, trailer, pairs :: FileOf(lib, lines, header, trailer, pairs)
  {
    if WellFormed(lib, lines) {
      var header, trailer := HeaderOf(lib, lines).value, TrailerOf(lib, lines).value;
      PartsInFull(lib, lines, header, trailer, Pairs(lib, Middle(lines)));
    }
    forall header, trailer, pairs | FileOf(lib, lines, header, trailer, pairs) ensures WellFormed(lib, lines) {
      PartsInFull(lib, lines, header, trailer, pairs);
    }
  }

  lemma PartsInFull(lib: Lib, lines: seq<Line>, header: Header, trailer: Trailer, pairs: seq<Pair>)
    requires |lines| == |pairs| + 2
    ensures FileOf(lib, lines, header, trailer, pairs) <==>
            && WellFormed(lib, lines) && HeaderOf(lib, lines) == Some(header) && TrailerOf(lib, lines) == Some(trailer)
            && pairs == Pairs(lib, Middle(lines))
  {
    HeaderInFull(lib, lines, header);
    EndInFull(lib, lines, trailer);
    RowsInFull(lib, lines, pairs);
    OrderInFull(header.tables, pairs);
    EntriesInFull(lib, header.tables, trailer, pairs);
    assert FileOf(lib, lines, header, trailer, pairs) <==>
           && HeaderOf(lib, lines) == Some(header) && header.format == 1 && TrailerOf(lib, lines) == Some(trailer)
           && RowsAsWritten(lib, lines, pairs) && InHeaderOrder(header.tables, pairs) && Describes(lib, header.tables, trailer, pairs);
  }

  lemma EntriesInFull(lib: Lib, tables: seq<string>, trailer: Trailer, pairs: seq<Pair>)
    ensures Describes(lib, tables, trailer, pairs) <==>
            && |trailer| == |tables|
            && forall t :: t in tables ==>
                 && t in trailer && trailer[t].rows == |RowsIn(pairs, t)| && trailer[t].sha256 == lib.sha256(Digested(RowsIn(pairs, t)))
                 && (Repeated(tables, t) ==> RowsIn(pairs, t) == [])
  {}

  /** What is digested of the rows of a table: each followed by a line feed. */
  lemma {:induction false} DigestedInFull(rows: seq<string>, row: string)
    ensures Digested([]) == "" && Digested([row] + rows) == row + "\n" + Digested(rows)
  {
    if rows == [] {
      assert [row][..0] == [] && [row] + rows == [row];
      assert "" + row + "\n" + "" == row + "\n" + "";
    } else {
      var front, last := rows[..|rows| - 1], rows[|rows| - 1];
      DigestedInFull(front, row);
      DigestedOfOneMore([row] + front, last);
      assert [row] + rows == ([row] + front) + [last];
    }
  }
}
